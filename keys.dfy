/**
 * Orderings and grouping by key.
 *
 * Several parts of the source sort a list by a key and then group consecutive
 * equal keys (`sorted_by_key(..).group_by(..)` from itertools, `sort_unstable`
 * followed by `dedup`). Because `sorted_by_key` is a stable sort, the groups it
 * produces are: for each distinct key in ascending order, the elements with that
 * key in their original relative order. This module defines that result
 * (`SortedKeys`, `Select`, `Grouped`) and proves that it loses and duplicates
 * nothing.
 */
module Keys {

  /** `less` is a strict total order. */
  ghost predicate StrictTotalOrder<K(!new)>(less: (K, K) -> bool) {
    && (forall x :: !less(x, x))
    && (forall x, y, z :: less(x, y) && less(y, z) ==> less(x, z))
    && (forall x, y :: x != y ==> less(x, y) || less(y, x))
  }

  /** `s` is strictly ascending under `less`, so it also holds no duplicates. */
  predicate Sorted<K>(s: seq<K>, less: (K, K) -> bool) {
    forall i, j :: 0 <= i < j < |s| ==> less(s[i], s[j])
  }

  predicate Distinct<K(==)>(s: seq<K>) {
    forall i, j :: 0 <= i < j < |s| ==> s[i] != s[j]
  }

  lemma SortedIsDistinct<K(!new)>(s: seq<K>, less: (K, K) -> bool)
    requires StrictTotalOrder(less) && Sorted(s, less)
    ensures Distinct(s)
  {
    forall i, j | 0 <= i < j < |s| ensures s[i] != s[j] {
      assert less(s[i], s[j]);
    }
  }

  /** Inserts `x` at its place in the strictly ascending `s`, unless it is already there. */
  function Insert<K(==,!new)>(s: seq<K>, x: K, less: (K, K) -> bool): (r: seq<K>)
    requires StrictTotalOrder(less) && Sorted(s, less)
    ensures Sorted(r, less)
    ensures forall k :: k in r <==> k in s || k == x
  {
    if |s| == 0 then [x]
    else if x == s[0] then s
    else if less(x, s[0]) then [x] + s
    else
      var tail := Insert(s[1..], x, less);
      assert forall k :: k in tail ==> less(s[0], k) by {
        forall k | k in tail ensures less(s[0], k) {
          if k == x {
          } else {
            var j :| 1 <= j < |s| && s[j] == k;
          }
        }
      }
      [s[0]] + tail
  }

  /**
   * The distinct keys of `ts`, in ascending order: what sorting the keys and
   * removing adjacent duplicates yields.
   */
  function SortedKeys<T, K(==,!new)>(ts: seq<T>, key: T -> K, less: (K, K) -> bool): (r: seq<K>)
    requires StrictTotalOrder(less)
    ensures Sorted(r, less)
  {
    if |ts| == 0 then []
    else Insert(SortedKeys(ts[..|ts| - 1], key, less), key(ts[|ts| - 1]), less)
  }

  /** The sorted keys are exactly the keys of the elements. */
  lemma {:induction false} SortedKeysMembers<T, K(!new)>(ts: seq<T>, key: T -> K, less: (K, K) -> bool)
    requires StrictTotalOrder(less)
    ensures forall i :: 0 <= i < |ts| ==> key(ts[i]) in SortedKeys(ts, key, less)
    ensures forall k :: k in SortedKeys(ts, key, less) ==> exists i :: 0 <= i < |ts| && key(ts[i]) == k
  {
    if |ts| > 0 {
      var front := ts[..|ts| - 1];
      SortedKeysMembers(front, key, less);
      var r := SortedKeys(ts, key, less);
      forall k | k in r ensures exists i :: 0 <= i < |ts| && key(ts[i]) == k {
        if k in SortedKeys(front, key, less) {
          var i :| 0 <= i < |front| && key(front[i]) == k;
          assert key(ts[i]) == k;
        } else {
          assert key(ts[|ts| - 1]) == k;
        }
      }
      forall i | 0 <= i < |ts| ensures key(ts[i]) in r {
        if i < |ts| - 1 {
          assert key(front[i]) in SortedKeys(front, key, less);
        }
      }
    }
  }

  /** Two strictly ascending sequences with the same elements are equal. */
  lemma {:induction false} SortedUnique<K(!new)>(a: seq<K>, b: seq<K>, less: (K, K) -> bool)
    requires StrictTotalOrder(less) && Sorted(a, less) && Sorted(b, less)
    requires forall k :: k in a <==> k in b
    ensures a == b
  {
    assert |a| > 0 ==> a[0] in b;
    assert |b| > 0 ==> b[0] in a;
    if |a| > 0 && |b| > 0 {
      assert b[0] in a && a[0] in b;
      assert a[0] == b[0];
      forall k ensures k in a[1..] <==> k in b[1..] {
        if k in a[1..] {
          var i :| 1 <= i < |a| && a[i] == k;
          assert less(a[0], a[i]);
          assert k in b;
          assert k != b[0];
        }
        if k in b[1..] {
          var j :| 1 <= j < |b| && b[j] == k;
          assert less(b[0], b[j]);
          assert k in a;
          assert k != a[0];
        }
      }
      SortedUnique(a[1..], b[1..], less);
      assert a == [a[0]] + a[1..] && b == [b[0]] + b[1..];
    }
  }

  /** Any strictly ascending sequence of exactly the keys of the elements is their sorted keys. */
  lemma SortedKeysUnique<T, K(!new)>(ts: seq<T>, key: T -> K, less: (K, K) -> bool, r: seq<K>)
    requires StrictTotalOrder(less) && Sorted(r, less)
    requires forall k :: k in r <==> exists i :: 0 <= i < |ts| && key(ts[i]) == k
    ensures r == SortedKeys(ts, key, less)
  {
    var sorted := SortedKeys(ts, key, less);
    SortedKeysMembers(ts, key, less);
    forall k ensures k in r <==> k in sorted {
      if k in sorted {
        var i :| 0 <= i < |ts| && key(ts[i]) == k;
      }
    }
    SortedUnique(r, sorted, less);
  }

  /** The elements of `ts` whose key is `k`, in their original order. */
  function Select<T, K(==)>(ts: seq<T>, key: T -> K, k: K): seq<T>
  {
    if |ts| == 0 then []
    else Select(ts[..|ts| - 1], key, k) + (if key(ts[|ts| - 1]) == k then [ts[|ts| - 1]] else [])
  }

  /** The groups of keys `ks`, one after the other. */
  function Grouped<T, K(==)>(ts: seq<T>, key: T -> K, ks: seq<K>): seq<T>
  {
    if |ks| == 0 then []
    else Grouped(ts, key, ks[..|ks| - 1]) + Select(ts, key, ks[|ks| - 1])
  }

  /** Every element `Select` keeps has the key asked for. */
  lemma {:induction false} SelectHasKey<T, K>(ts: seq<T>, key: T -> K, k: K)
    ensures forall i :: 0 <= i < |Select(ts, key, k)| ==> key(Select(ts, key, k)[i]) == k
  {
    if |ts| > 0 {
      SelectHasKey(ts[..|ts| - 1], key, k);
    }
  }

  lemma {:induction false} SelectSnoc<T, K>(ts: seq<T>, t: T, key: T -> K, k: K)
    ensures Select(ts + [t], key, k) == Select(ts, key, k) + (if key(t) == k then [t] else [])
  {
    assert (ts + [t])[..|ts|] == ts;
  }

  /** `Select` is a filter that keeps relative order: selecting from two parts selects from each in turn. */
  lemma {:induction false} SelectAppend<T, K>(a: seq<T>, b: seq<T>, key: T -> K, k: K)
    ensures Select(a + b, key, k) == Select(a, key, k) + Select(b, key, k)
  {
    if |b| == 0 {
      assert a + b == a;
    } else {
      var front, last := b[..|b| - 1], b[|b| - 1];
      assert a + b == (a + front) + [last];
      SelectAppend(a, front, key, k);
      SelectSnoc(a + front, last, key, k);
    }
  }

  lemma {:induction false} GroupedOfEmpty<T, K>(key: T -> K, ks: seq<K>)
    ensures Grouped([], key, ks) == []
  {
    if |ks| > 0 {
      GroupedOfEmpty(key, ks[..|ks| - 1]);
    }
  }

  lemma {:induction false} GroupedSnoc<T, K>(ts: seq<T>, t: T, key: T -> K, ks: seq<K>)
    requires Distinct(ks)
    ensures multiset(Grouped(ts + [t], key, ks))
         == multiset(Grouped(ts, key, ks)) + (if key(t) in ks then multiset{t} else multiset{})
  {
    if |ks| > 0 {
      var front, k := ks[..|ks| - 1], ks[|ks| - 1];
      assert ks == front + [k];
      GroupedSnoc(ts, t, key, front);
      SelectSnoc(ts, t, key, k);
      assert key(t) == k ==> key(t) !in front;
    }
  }

  /** Grouping by the distinct keys of the list loses no element and duplicates none. */
  lemma {:induction false} GroupedIsPermutation<T, K>(ts: seq<T>, key: T -> K, ks: seq<K>)
    requires Distinct(ks)
    requires forall i :: 0 <= i < |ts| ==> key(ts[i]) in ks
    ensures multiset(Grouped(ts, key, ks)) == multiset(ts)
  {
    if |ts| == 0 {
      GroupedOfEmpty(key, ks);
    } else {
      var front, t := ts[..|ts| - 1], ts[|ts| - 1];
      assert ts == front + [t];
      GroupedIsPermutation(front, key, ks);
      GroupedSnoc(front, t, key, ks);
    }
  }

  /** The groups of the sorted distinct keys together are a permutation of the list. */
  lemma GroupsCoverAll<T, K(!new)>(ts: seq<T>, key: T -> K, less: (K, K) -> bool)
    requires StrictTotalOrder(less)
    ensures multiset(Grouped(ts, key, SortedKeys(ts, key, less))) == multiset(ts)
    ensures |Grouped(ts, key, SortedKeys(ts, key, less))| == |ts|
  {
    var ks := SortedKeys(ts, key, less);
    SortedKeysMembers(ts, key, less);
    SortedIsDistinct(ks, less);
    GroupedIsPermutation(ts, key, ks);
    assert |multiset(Grouped(ts, key, ks))| == |multiset(ts)|;
  }

  lemma GroupedStep<T, K>(ts: seq<T>, key: T -> K, ks: seq<K>, g: nat)
    requires g < |ks|
    ensures Grouped(ts, key, ks[..g + 1]) == Grouped(ts, key, ks[..g]) + Select(ts, key, ks[g])
  {
    assert ks[..g + 1][..g] == ks[..g];
  }

  // The orders of the key types that the source sorts by.

  predicate IntLess(a: int, b: int) {
    a < b
  }

  lemma IntLessIsStrictTotalOrder()
    ensures StrictTotalOrder(IntLess)
  {
  }

  /** Rust's `Ord` on `String`: lexicographic by character. */
  predicate StringLess(a: string, b: string) {
    if |a| == 0 then |b| != 0
    else if |b| == 0 then false
    else if a[0] != b[0] then a[0] < b[0]
    else StringLess(a[1..], b[1..])
  }

  lemma {:induction false} StringLessIrreflexive(a: string)
    ensures !StringLess(a, a)
  {
    if |a| > 0 {
      StringLessIrreflexive(a[1..]);
    }
  }

  lemma {:induction false} StringLessTransitive(a: string, b: string, c: string)
    requires StringLess(a, b) && StringLess(b, c)
    ensures StringLess(a, c)
  {
    if |a| > 0 && |b| > 0 && |c| > 0 && a[0] == b[0] && b[0] == c[0] {
      StringLessTransitive(a[1..], b[1..], c[1..]);
    }
  }

  lemma {:induction false} StringLessConnected(a: string, b: string)
    requires a != b
    ensures StringLess(a, b) || StringLess(b, a)
  {
    if |a| > 0 && |b| > 0 && a[0] == b[0] {
      assert a == [a[0]] + a[1..] && b == [b[0]] + b[1..];
      StringLessConnected(a[1..], b[1..]);
    }
  }

  lemma StringLessIsStrictTotalOrder()
    ensures StrictTotalOrder(StringLess)
  {
    forall a ensures !StringLess(a, a) {
      StringLessIrreflexive(a);
    }
    forall a, b, c | StringLess(a, b) && StringLess(b, c) ensures StringLess(a, c) {
      StringLessTransitive(a, b, c);
    }
    forall a, b | a != b ensures StringLess(a, b) || StringLess(b, a) {
      StringLessConnected(a, b);
    }
  }

  /** Rust's `Ord` on a `(&str, NaiveDate)` pair: by the string, then by the date. */
  predicate StringIntLess(a: (string, int), b: (string, int)) {
    StringLess(a.0, b.0) || (a.0 == b.0 && a.1 < b.1)
  }

  lemma StringIntLessIsStrictTotalOrder()
    ensures StrictTotalOrder(StringIntLess)
  {
    StringLessIsStrictTotalOrder();
  }
}
