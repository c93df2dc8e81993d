/**
 * Merge, rank and cap of api/rss.js: `lists.flat()`, a stable sort by
 * timestamp, newest first, and `.slice(0, 50)`. Sorting is an insertion sort
 * on sequences; stability is stated as "for every timestamp, the items that
 * carry it appear in input order", and together with sortedness that property
 * determines the sorted sequence uniquely.
 */
module Ranking {

  /** The cap `.slice(0, 50)` */
  const MaxItems: nat := 50

  function Min(a: int, b: int): int {
    if a <= b then a else b
  }

  // ---------- flattening ----------

  /** `lists.flat()` */
  function Flatten<T>(lists: seq<seq<T>>): seq<T>
    decreases |lists|
  {
    if |lists| == 0 then [] else lists[0] + Flatten(lists[1..])
  }

  /** Reference definition: the sum of the lists' lengths */
  function TotalLength<T>(lists: seq<seq<T>>): nat
    decreases |lists|
  {
    if |lists| == 0 then 0 else |lists[|lists| - 1]| + TotalLength(lists[..|lists| - 1])
  }

  lemma {:induction false} FlattenAppendLast<T>(lists: seq<seq<T>>)
    requires |lists| > 0
    ensures Flatten(lists) == Flatten(lists[..|lists| - 1]) + lists[|lists| - 1]
    decreases |lists|
  {
    if |lists| == 1 {
      assert lists[..0] == [];
    } else {
      FlattenAppendLast(lists[1..]);
      assert lists[1..][..|lists| - 2] == lists[..|lists| - 1][1..];
    }
  }

  /** Flattening keeps every item: the length is the sum of the lengths. */
  lemma {:induction false} FlattenLength<T>(lists: seq<seq<T>>)
    ensures |Flatten(lists)| == TotalLength(lists)
    decreases |lists|
  {
    if |lists| > 0 {
      FlattenAppendLast(lists);
      FlattenLength(lists[..|lists| - 1]);
    }
  }

  /** An item is in the flattened list exactly when it is in one of the lists. */
  lemma {:induction false} FlattenMembers<T>(lists: seq<seq<T>>, x: T)
    ensures x in Flatten(lists) <==> exists i :: 0 <= i < |lists| && x in lists[i]
    decreases |lists|
  {
    if |lists| > 0 {
      FlattenMembers(lists[1..], x);
      if x in Flatten(lists[1..]) {
        var i :| 0 <= i < |lists[1..]| && x in lists[1..][i];
        assert x in lists[i + 1];
      }
      if exists i :: 0 <= i < |lists| && x in lists[i] {
        var i :| 0 <= i < |lists| && x in lists[i];
        if i > 0 { assert x in lists[1..][i - 1]; }
      }
    }
  }

  // ---------- stable descending sort ----------

  /** Non-increasing by key */
  ghost predicate SortedDesc<T>(s: seq<T>, key: T -> int) {
    forall i, j :: 0 <= i < j < |s| ==> key(s[i]) >= key(s[j])
  }

  /** The items of `s` whose key is `k`, in order */
  function Filter<T>(s: seq<T>, key: T -> int, k: int): seq<T>
    decreases |s|
  {
    if |s| == 0 then []
    else (if key(s[0]) == k then [s[0]] else []) + Filter(s[1..], key, k)
  }

  /** Stability: for every key, the items carrying it appear in the same order in both */
  ghost predicate SameOrderPerKey<T>(a: seq<T>, b: seq<T>, key: T -> int) {
    forall k :: Filter(a, key, k) == Filter(b, key, k)
  }

  /** Inserts `x` before the first item that is not newer than it */
  function Insert<T>(x: T, s: seq<T>, key: T -> int): (r: seq<T>)
    ensures multiset(r) == multiset(s) + multiset{x}
    ensures SortedDesc(s, key) ==> SortedDesc(r, key)
    decreases |s|
  {
    if |s| == 0 || key(x) >= key(s[0]) then [x] + s
    else
      var rest := Insert(x, s[1..], key);
      assert s == [s[0]] + s[1..];
      InsertStep(x, s, rest, key);
      [s[0]] + rest
  }

  lemma InsertStep<T>(x: T, s: seq<T>, rest: seq<T>, key: T -> int)
    requires |s| > 0 && key(x) < key(s[0])
    requires multiset(rest) == multiset(s[1..]) + multiset{x}
    requires SortedDesc(s[1..], key) ==> SortedDesc(rest, key)
    ensures SortedDesc(s, key) ==> SortedDesc([s[0]] + rest, key)
  {
    if SortedDesc(s, key) {
      assert SortedDesc(s[1..], key);
      var r := [s[0]] + rest;
      forall i, j | 0 <= i < j < |r| ensures key(r[i]) >= key(r[j]) {
        if i == 0 {
          var y := r[j];
          assert y in multiset(rest);
          if y != x {
            assert y in multiset(s[1..]);
            var m :| 0 <= m < |s[1..]| && s[1..][m] == y;
            assert s[m + 1] == y;
          }
        } else {
          assert r[i] == rest[i - 1] && r[j] == rest[j - 1];
        }
      }
    }
  }


  /** The stable sort, newest first: `.sort((a, b) => key(b) - key(a))` */
  function SortDesc<T>(s: seq<T>, key: T -> int): (r: seq<T>)
    ensures multiset(r) == multiset(s)
    ensures SortedDesc(r, key)
    decreases |s|
  {
    if |s| == 0 then []
    else
      assert s == [s[0]] + s[1..];
      Insert(s[0], SortDesc(s[1..], key), key)
  }

  lemma {:induction false} FilterInsert<T>(x: T, s: seq<T>, key: T -> int, k: int)
    ensures Filter(Insert(x, s, key), key, k)
         == (if key(x) == k then [x] else []) + Filter(s, key, k)
    decreases |s|
  {
    if |s| == 0 || key(x) >= key(s[0]) {
      assert ([x] + s)[1..] == s;
    } else {
      var rest := Insert(x, s[1..], key);
      assert ([s[0]] + rest)[1..] == rest;
      FilterInsert(x, s[1..], key, k);
    }
  }

  /** The sort is stable: items with equal keys keep their input order. */
  lemma {:induction false} SortDescStable<T>(s: seq<T>, key: T -> int)
    ensures SameOrderPerKey(SortDesc(s, key), s, key)
    decreases |s|
  {
    if |s| > 0 {
      SortDescStable(s[1..], key);
      forall k
        ensures Filter(SortDesc(s, key), key, k) == Filter(s, key, k)
      {
        FilterInsert(s[0], SortDesc(s[1..], key), key, k);
      }
    }
  }

  lemma {:induction false} FilterFacts<T>(s: seq<T>, key: T -> int, k: int)
    ensures forall y :: y in Filter(s, key, k) ==> y in s && key(y) == k
    ensures forall i :: 0 <= i < |s| && key(s[i]) == k ==> s[i] in Filter(s, key, k)
    decreases |s|
  {
    if |s| > 0 {
      FilterFacts(s[1..], key, k);
      forall i | 0 <= i < |s| && key(s[i]) == k
        ensures s[i] in Filter(s, key, k)
      {
        if i > 0 { assert s[i] == s[1..][i - 1]; }
      }
    }
  }

  /** Sortedness and per-key order determine a sequence: two sorted sequences with the
      same items in the same order per key are equal. */
  lemma {:induction false} SortedUnique<T>(a: seq<T>, b: seq<T>, key: T -> int)
    requires SortedDesc(a, key) && SortedDesc(b, key)
    requires SameOrderPerKey(a, b, key)
    ensures a == b
    decreases |a| + |b|
  {
    if |a| == 0 || |b| == 0 {
      if |a| > 0 {
        FilterFacts(a, key, key(a[0]));
        assert false;
      } else if |b| > 0 {
        FilterFacts(b, key, key(b[0]));
        assert false;
      }
    } else {
      var ka, kb := key(a[0]), key(b[0]);
      FilterFacts(a, key, ka);
      FilterFacts(b, key, ka);
      FilterFacts(a, key, kb);
      FilterFacts(b, key, kb);
      assert a[0] in Filter(b, key, ka);
      assert b[0] in Filter(a, key, kb);
      assert ka == kb;
      assert Filter(a, key, ka)[0] == a[0];
      assert Filter(b, key, ka)[0] == b[0];
      forall k
        ensures Filter(a[1..], key, k) == Filter(b[1..], key, k)
      {
        var fa, fb := Filter(a, key, k), Filter(b, key, k);
        assert fa == fb;
        if k == ka {
          assert fa == [a[0]] + Filter(a[1..], key, k);
          assert fb == [b[0]] + Filter(b[1..], key, k);
          assert Filter(a[1..], key, k) == fa[1..];
          assert Filter(b[1..], key, k) == fb[1..];
        } else {
          assert key(a[0]) != k && key(b[0]) != k;
          assert fa == Filter(a[1..], key, k);
          assert fb == Filter(b[1..], key, k);
        }
      }
      SortedUnique(a[1..], b[1..], key);
      assert a == [a[0]] + a[1..];
      assert b == [b[0]] + b[1..];
    }
  }

  /** The stable descending sort is the one sorted arrangement that keeps input order
      among equal keys. */
  lemma SortDescCharacterization<T>(s: seq<T>, r: seq<T>, key: T -> int)
    ensures r == SortDesc(s, key) <==> SortedDesc(r, key) && SameOrderPerKey(r, s, key)
  {
    SortDescStable(s, key);
    if SortedDesc(r, key) && SameOrderPerKey(r, s, key) {
      SortedUnique(r, SortDesc(s, key), key);
    }
  }

  // ---------- the cap ----------

  lemma {:induction false} FilterTake<T>(s: seq<T>, n: nat, key: T -> int, k: int)
    requires n <= |s|
    ensures Filter(s[..n], key, k) <= Filter(s, key, k)
    decreases |s|
  {
    if n > 0 {
      assert s[..n][1..] == s[1..][..n - 1];
      FilterTake(s[1..], n - 1, key, k);
    }
  }

  /** The first `n` items of a sorted sequence are sorted, and no copy left after them is
      newer than any of them: an item with fewer copies in the prefix than in the whole
      sequence is no newer than any item of the prefix. */
  lemma TakeSorted<T>(sorted: seq<T>, n: nat, key: T -> int)
    requires SortedDesc(sorted, key) && n <= |sorted|
    ensures SortedDesc(sorted[..n], key)
    ensures forall x :: multiset(sorted[..n])[x] < multiset(sorted)[x] ==>
              forall i :: 0 <= i < n ==> key(x) <= key(sorted[i])
  {
    assert sorted == sorted[..n] + sorted[n..];
    forall x | multiset(sorted[..n])[x] < multiset(sorted)[x]
      ensures forall i :: 0 <= i < n ==> key(x) <= key(sorted[i])
    {
      assert x in multiset(sorted[n..]);
      var j :| 0 <= j < |sorted[n..]| && sorted[n..][j] == x;
      assert sorted[n + j] == x;
    }
  }

  lemma TakeMultiset<T>(s: seq<T>, n: nat)
    requires n <= |s|
    ensures multiset(s[..n]) <= multiset(s)
  {
    assert s == s[..n] + s[n..];
  }

  /** The first `n` items of a stable sort of `all`: sorted, drawn from `all`, in `all`'s
      order per key, and no copy left out is newer than a kept item. */
  lemma CapFacts<T>(all: seq<T>, sorted: seq<T>, n: nat, key: T -> int)
    requires multiset(sorted) == multiset(all) && SortedDesc(sorted, key)
    requires SameOrderPerKey(sorted, all, key) && n <= |sorted|
    ensures SortedDesc(sorted[..n], key)
    ensures multiset(sorted[..n]) <= multiset(all)
    ensures forall k :: Filter(sorted[..n], key, k) <= Filter(all, key, k)
    ensures forall x :: x in all && multiset(sorted[..n])[x] < multiset(all)[x] ==>
              forall i :: 0 <= i < n ==> key(x) <= key(sorted[i])
  {
    TakeSorted(sorted, n, key);
    TakeMultiset(sorted, n);
    forall k ensures Filter(sorted[..n], key, k) <= Filter(all, key, k) {
      FilterTake(sorted, n, key, k);
    }
  }

  /** `lists.flat().sort(newest first).slice(0, 50)` */
  function Merge<T>(lists: seq<seq<T>>, key: T -> int): (r: seq<T>)
    ensures |r| == Min(MaxItems, TotalLength(lists))
    ensures SortedDesc(r, key)
    ensures multiset(r) <= multiset(Flatten(lists))
    ensures forall k :: Filter(r, key, k) <= Filter(Flatten(lists), key, k)
    ensures forall x :: x in Flatten(lists) && multiset(r)[x] < multiset(Flatten(lists))[x] ==>
              forall i :: 0 <= i < |r| ==> key(x) <= key(r[i])
  {
    var all := Flatten(lists);
    var sorted := SortDesc(all, key);
    var n := Min(MaxItems, |sorted|);
    FlattenLength(lists);
    SortDescStable(all, key);
    CapFacts(all, sorted, n, key);
    sorted[..n]
  }

  /** Under the cap nothing is dropped: the merged list holds every item of every list. */
  lemma MergeKeepsAllUnderCap<T>(lists: seq<seq<T>>, key: T -> int)
    requires TotalLength(lists) <= MaxItems
    ensures multiset(Merge(lists, key)) == multiset(Flatten(lists))
  {
    var r, all := Merge(lists, key), Flatten(lists);
    FlattenLength(lists);
    var d := multiset(all) - multiset(r);
    assert multiset(all) == multiset(r) + d;
    assert |d| == 0;
  }
}
