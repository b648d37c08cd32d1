/** Sorting of a list by a given order, as the callers of a library sort rely on it. */
module Sorting {

  ghost predicate Asymmetric<T(!new)>(less: (T, T) -> bool) {
    forall a, b :: less(a, b) ==> !less(b, a)
  }

  /** Not being less carries over: with asymmetry this is a strict weak order. */
  ghost predicate NegativelyTransitive<T(!new)>(less: (T, T) -> bool) {
    forall a, b, c :: !less(b, a) && !less(c, b) ==> !less(c, a)
  }

  ghost predicate Ordered<T(!new)>(less: (T, T) -> bool, list: seq<T>) {
    forall i, j :: 0 <= i < j < |list| ==> !less(list[j], list[i])
  }

  function Place<T>(less: (T, T) -> bool, sorted: seq<T>, x: T): seq<T> {
    if sorted == [] || less(x, sorted[0]) then [x] + sorted else [sorted[0]] + Place(less, sorted[1..], x)
  }

  function SortBy<T>(less: (T, T) -> bool, list: seq<T>): seq<T> {
    if list == [] then [] else Place(less, SortBy(less, list[..|list| - 1]), list[|list| - 1])
  }

  lemma {:induction false} PlaceKeeps<T>(less: (T, T) -> bool, sorted: seq<T>, x: T)
    ensures multiset(Place(less, sorted, x)) == multiset(sorted) + multiset{x}
  {
    if sorted != [] && !less(x, sorted[0]) {
      PlaceKeeps(less, sorted[1..], x);
      assert sorted == [sorted[0]] + sorted[1..];
    }
  }

  /** A sorted list is a rearrangement of what was given. */
  lemma {:induction false} SortKeeps<T>(less: (T, T) -> bool, list: seq<T>)
    ensures multiset(SortBy(less, list)) == multiset(list)
  {
    if list != [] {
      SortKeeps(less, list[..|list| - 1]);
      PlaceKeeps(less, SortBy(less, list[..|list| - 1]), list[|list| - 1]);
      assert list == list[..|list| - 1] + [list[|list| - 1]];
    }
  }

  lemma {:induction false} PlaceOrders<T(!new)>(less: (T, T) -> bool, sorted: seq<T>, x: T)
    requires Asymmetric(less) && NegativelyTransitive(less) && Ordered(less, sorted)
    ensures Ordered(less, Place(less, sorted, x))
    ensures forall y :: y in Place(less, sorted, x) <==> y == x || y in sorted
  {
    if sorted == [] || less(x, sorted[0]) {
      forall j | 0 <= j < |sorted| ensures !less(sorted[j], x) {
        assert !less(sorted[0], x) && (j > 0 ==> !less(sorted[j], sorted[0]));
      }
    } else {
      var rest := sorted[1..];
      assert sorted == [sorted[0]] + rest;
      PlaceOrders(less, rest, x);
      forall y | y in Place(less, rest, x) ensures !less(y, sorted[0]) {
        if y != x {
          var j :| 0 <= j < |rest| && rest[j] == y;
          assert sorted[j + 1] == y;
        }
      }
    }
  }

  lemma {:induction false} SortOrders<T(!new)>(less: (T, T) -> bool, list: seq<T>)
    requires Asymmetric(less) && NegativelyTransitive(less)
    ensures Ordered(less, SortBy(less, list))
  {
    if list != [] {
      SortOrders(less, list[..|list| - 1]);
      PlaceOrders(less, SortBy(less, list[..|list| - 1]), list[|list| - 1]);
    }
  }

  /** A rearrangement holds the same elements, and as many. */
  lemma Rearranged<T>(a: seq<T>, b: seq<T>)
    requires multiset(a) == multiset(b)
    ensures |a| == |b| && forall x :: x in a <==> x in b
  {
    forall x ensures x in a <==> x in b {
      assert x in a <==> multiset(a)[x] > 0;
      assert x in b <==> multiset(b)[x] > 0;
    }
    assert |multiset(a)| == |a| && |multiset(b)| == |b|;
  }

  predicate Distinct<T(==)>(list: seq<T>) {
    forall i, j :: 0 <= i < j < |list| ==> list[i] != list[j]
  }

  lemma OnceIfDistinct<T>(list: seq<T>, x: T)
    requires Distinct(list)
    ensures multiset(list)[x] <= 1
  {
    if x in list {
      var i :| 0 <= i < |list| && list[i] == x;
      assert list == list[..i] + [x] + list[i + 1..];
      assert x !in list[..i] && x !in list[i + 1..];
    }
  }

  lemma TwiceIfRepeated<T>(list: seq<T>, i: nat, j: nat)
    requires i < j < |list| && list[i] == list[j]
    ensures multiset(list)[list[i]] >= 2
  {
    assert list == list[..i] + [list[i]] + list[i + 1..j] + [list[j]] + list[j + 1..];
  }

  /** A list without repetition is one in which no element occurs twice. */
  lemma DistinctExactly<T>(list: seq<T>)
    ensures Distinct(list) <==> forall x :: multiset(list)[x] <= 1
  {
    if Distinct(list) {
      forall x ensures multiset(list)[x] <= 1 { OnceIfDistinct(list, x); }
    }
    forall i, j | 0 <= i < j < |list| && list[i] == list[j] ensures multiset(list)[list[i]] >= 2 {
      TwiceIfRepeated(list, i, j);
    }
  }

  /** The keys of a rearranged list are distinct if they were. */
  lemma KeysStayDistinct<T, K>(key: T -> K, a: seq<T>, b: seq<T>)
    requires multiset(a) == multiset(b) && DistinctKeys(key, a)
    ensures DistinctKeys(key, b)
  {
    Rearranged(a, b);
    DistinctExactly(a);
    DistinctExactly(b);
    forall i, j | 0 <= i < j < |b| ensures key(b[i]) != key(b[j]) {
      assert b[i] in a && b[j] in a;
      var m :| 0 <= m < |a| && a[m] == b[i];
      var n :| 0 <= n < |a| && a[n] == b[j];
      assert b[i] != b[j];
    }
  }

  predicate DistinctKeys<T, K(==)>(key: T -> K, list: seq<T>) {
    forall i, j :: 0 <= i < j < |list| ==> key(list[i]) != key(list[j])
  }

  lemma DistinctOneMore<T, K>(key: T -> K, list: seq<T>, i: nat)
    requires i < |list|
    ensures DistinctKeys(key, list[..i + 1]) <==> DistinctKeys(key, list[..i]) && forall k :: 0 <= k < i ==>
        key(list[k]) != key(list[i])
  {
    var longer := list[..i + 1];
    if DistinctKeys(key, longer) {
      forall k | 0 <= k < i ensures key(list[k]) != key(list[i]) { assert key(longer[k]) != key(longer[i]); }
      forall j, k | 0 <= j < k < i
          ensures key(list[..i][j]) != key(list[..i][k]) { assert key(longer[j]) != key(longer[k]); }
    }
    if DistinctKeys(key, list[..i]) && forall k :: 0 <= k < i ==> key(list[k]) != key(list[i]) {
      forall j, k | 0 <= j < k < |longer| ensures key(longer[j]) != key(longer[k]) {
        if k < i { assert key(list[..i][j]) != key(list[..i][k]); }
      }
    }
  }

  ghost function Keys<T, K>(key: T -> K, list: seq<T>): set<K> {
    set x | x in list :: key(x)
  }

  /** Distinct keys are as many as the elements that have them. */
  lemma {:induction false} CountKeys<T, K>(key: T -> K, list: seq<T>)
    requires DistinctKeys(key, list)
    ensures |Keys(key, list)| == |list|
  {
    if list == [] {
      assert Keys(key, list) == {};
    } else {
      var n := |list| - 1;
      var rest := list[..n];
      assert list == rest + [list[n]];
      CountKeys(key, rest);
      forall x | x in rest ensures key(x) != key(list[n]) {
        var i :| 0 <= i < n && list[i] == x;
      }
      assert Keys(key, list) == Keys(key, rest) + {key(list[n])};
    }
  }

  // ---- The order of byte strings ----

  predicate Less(a: string, b: string) {
    b != [] && (a == [] || a[0] < b[0] || (a[0] == b[0] && Less(a[1..], b[1..])))
  }

  /** The texts agree on their first k characters, and then a ends and b goes on, or a has the smaller character. */
  predicate SplitsAt(a: string, b: string, k: nat) {
    k <= |a| && k < |b| && a[..k] == b[..k] && (k == |a| || a[k] < b[k])
  }

  /** One text comes before another exactly if they split somewhere in its favour. */
  lemma {:induction false} LessExactly(a: string, b: string)
    ensures Less(a, b) <==> exists k: nat :: SplitsAt(a, b, k)
  {
    if a == [] || b == [] || a[0] != b[0] {
      assert Less(a, b) ==> SplitsAt(a, b, 0);
      assert a[..0] == b[..0];
      forall k: nat | SplitsAt(a, b, k) ensures Less(a, b) {
        assert k > 0 ==> a[..k][0] == b[..k][0];
      }
    } else {
      LessExactly(a[1..], b[1..]);
      forall k: nat ensures SplitsAt(a[1..], b[1..], k) <==> SplitsAt(a, b, k + 1) {
        SplitsOneOn(a, b, k);
      }
      if Less(a, b) {
        var k: nat :| SplitsAt(a[1..], b[1..], k);
        assert SplitsAt(a, b, k + 1);
      }
      forall k: nat | SplitsAt(a, b, k) ensures Less(a, b) {
        assert k > 0 && SplitsAt(a[1..], b[1..], k - 1);
      }
    }
  }

  lemma SplitsOneOn(a: string, b: string, k: nat)
    requires a != [] && b != [] && a[0] == b[0]
    ensures SplitsAt(a[1..], b[1..], k) <==> SplitsAt(a, b, k + 1)
  {
    if k + 1 <= |a| && k + 1 <= |b| {
      assert a[..k + 1] == [a[0]] + a[1..][..k] && b[..k + 1] == [b[0]] + b[1..][..k];
    }
  }

  lemma {:induction false} LessIsAsymmetric(a: string, b: string)
    requires Less(a, b)
    ensures !Less(b, a)
  {
    if a != [] && a[0] == b[0] { LessIsAsymmetric(a[1..], b[1..]); }
  }

  lemma {:induction false} LessCarriesOver(a: string, b: string, c: string)
    requires !Less(b, a) && !Less(c, b)
    ensures !Less(c, a)
  {
    if a != [] && b != [] && c != [] && a[0] == b[0] == c[0] {
      LessCarriesOver(a[1..], b[1..], c[1..]);
    }
  }
}
