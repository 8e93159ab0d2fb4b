/**
 * `Array.prototype.sort` with a comparator, as the pages use it. The engine's
 * algorithm is not visible, so the sort is modelled by an insertion sort, proved
 * stable for the key sorts (the language has required `sort` to be stable since
 * ES2019): `before(a, b)`
 * reads the comparator as "`a` may stay in front of `b`", `cmp(a, b) <= 0`.
 */
module Sorting {

  function Insert<T>(x: T, sorted: seq<T>, before: (T, T) -> bool): (r: seq<T>)
    ensures |r| == |sorted| + 1
  {
    if sorted == [] then [x]
    else if before(x, sorted[0]) then [x] + sorted
    else [sorted[0]] + Insert(x, sorted[1..], before)
  }

  function SortWith<T>(list: seq<T>, before: (T, T) -> bool): (r: seq<T>)
    ensures |r| == |list|
  {
    if list == [] then [] else Insert(list[0], SortWith(list[1..], before), before)
  }

  lemma {:induction false} InsertPermutes<T>(x: T, sorted: seq<T>, before: (T, T) -> bool)
    ensures multiset(Insert(x, sorted, before)) == multiset(sorted) + multiset{x}
  {
    if sorted != [] && !before(x, sorted[0]) {
      InsertPermutes(x, sorted[1..], before);
      assert sorted == [sorted[0]] + sorted[1..];
    }
  }

  /** Sorting only reorders. */
  lemma {:induction false} SortWithPermutes<T>(list: seq<T>, before: (T, T) -> bool)
    ensures multiset(SortWith(list, before)) == multiset(list)
  {
    if list != [] {
      SortWithPermutes(list[1..], before);
      InsertPermutes(list[0], SortWith(list[1..], before), before);
      assert list == [list[0]] + list[1..];
    }
  }

  /** Every element's key is at least that of every later element. */
  predicate Descending<T>(list: seq<T>, key: T -> real)
  {
    forall i, j :: 0 <= i < j < |list| ==> key(list[i]) >= key(list[j])
  }

  lemma {:induction false} InsertDescending<T>(x: T, sorted: seq<T>, before: (T, T) -> bool, key: T -> real)
    requires forall a, b :: before(a, b) <==> key(a) >= key(b)
    requires Descending(sorted, key)
    ensures Descending(Insert(x, sorted, before), key)
  {
    if sorted != [] {
      if before(x, sorted[0]) {
        var r := [x] + sorted;
        forall i, j | 0 <= i < j < |r| ensures key(r[i]) >= key(r[j]) {
          if i > 0 {
            assert r[i] == sorted[i - 1] && r[j] == sorted[j - 1];
          } else {
            assert key(sorted[0]) >= key(sorted[j - 1]) || j == 1;
          }
        }
      } else {
        InsertDescending(x, sorted[1..], before, key);
        var rest := Insert(x, sorted[1..], before);
        InsertPermutes(x, sorted[1..], before);
        var r := [sorted[0]] + rest;
        forall i, j | 0 <= i < j < |r| ensures key(r[i]) >= key(r[j]) {
          if i > 0 {
            assert r[i] == rest[i - 1] && r[j] == rest[j - 1];
          } else {
            assert r[j] in multiset(rest);
            assert r[j] == x || r[j] in multiset(sorted[1..]);
            if r[j] != x {
              var k :| 0 <= k < |sorted[1..]| && sorted[1..][k] == r[j];
              assert sorted[k + 1] == r[j];
            }
          }
        }
      }
    }
  }

  /** Sorting by a key, larger first, leaves the keys non-increasing. */
  lemma {:induction false} SortWithDescending<T>(list: seq<T>, before: (T, T) -> bool, key: T -> real)
    requires forall a, b :: before(a, b) <==> key(a) >= key(b)
    ensures Descending(SortWith(list, before), key)
  {
    if list != [] {
      SortWithDescending(list[1..], before, key);
      InsertDescending(list[0], SortWith(list[1..], before), before, key);
    }
  }

  /** The elements whose key is `k`, in the order of the list. */
  function WithKey<T>(list: seq<T>, key: T -> real, k: real): (r: seq<T>)
    ensures |r| <= |list|
  {
    if list == [] then []
    else (if key(list[0]) == k then [list[0]] else []) + WithKey(list[1..], key, k)
  }

  /** Picking one key's elements from a prefix gives a prefix of picking them from the whole. */
  lemma {:induction false} WithKeyPrefix<T>(list: seq<T>, key: T -> real, k: real, m: nat)
    requires m <= |list|
    ensures WithKey(list[..m], key, k) <= WithKey(list, key, k)
  {
    if m > 0 {
      WithKeyPrefix(list[1..], key, k, m - 1);
      assert list[..m][0] == list[0] && list[..m][1..] == list[1..][..m - 1];
    }
  }

  /** An inserted element goes in front of every element of its own key. */
  lemma {:induction false} InsertAheadOfTies<T>(x: T, sorted: seq<T>, before: (T, T) -> bool, key: T -> real, k: real)
    requires forall a, b :: before(a, b) <==> key(a) >= key(b)
    ensures WithKey(Insert(x, sorted, before), key, k) == (if key(x) == k then [x] else []) + WithKey(sorted, key, k)
  {
    var mine := if key(x) == k then [x] else [];
    if sorted == [] {
      assert WithKey([x], key, k) == mine + WithKey([], key, k);
    } else if before(x, sorted[0]) {
      assert ([x] + sorted)[1..] == sorted;
    } else {
      var head := if key(sorted[0]) == k then [sorted[0]] else [];
      var rest := Insert(x, sorted[1..], before);
      InsertAheadOfTies(x, sorted[1..], before, key, k);
      assert ([sorted[0]] + rest)[1..] == rest;
      assert key(x) < key(sorted[0]);
      assert mine == [] || head == [];
      calc {
        WithKey(Insert(x, sorted, before), key, k);
        head + WithKey(rest, key, k);
        head + (mine + WithKey(sorted[1..], key, k));
        mine + (head + WithKey(sorted[1..], key, k));
        mine + WithKey(sorted, key, k);
      }
    }
  }

  /** Sorting by a key, larger first, is stable: the elements of each key keep their order. */
  lemma {:induction false} SortWithStable<T>(list: seq<T>, before: (T, T) -> bool, key: T -> real, k: real)
    requires forall a, b :: before(a, b) <==> key(a) >= key(b)
    ensures WithKey(SortWith(list, before), key, k) == WithKey(list, key, k)
  {
    if list != [] {
      SortWithStable(list[1..], before, key, k);
      InsertAheadOfTies(list[0], SortWith(list[1..], before), before, key, k);
    }
  }
}
