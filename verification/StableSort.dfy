/** The library sort the scripts call: by an integer key, stable. */
module StableSort {

  /** Puts an element behind those of no greater key. */
  function InsertByKey<T>(x: T, xs: seq<T>, key: T -> int): (r: seq<T>)
    ensures |r| == |xs| + 1
  {
    if xs == [] || key(x) < key(xs[0]) then [x] + xs else [xs[0]] + InsertByKey(x, xs[1..], key)
  }

  /** `sorted(rows, key=...)`. */
  function SortByKey<T>(xs: seq<T>, key: T -> int): (r: seq<T>)
    ensures |r| == |xs|
  {
    if xs == [] then [] else InsertByKey(xs[|xs| - 1], SortByKey(xs[..|xs| - 1], key), key)
  }

  predicate Sorted<T>(xs: seq<T>, key: T -> int) {
    forall i, j :: 0 <= i < j < |xs| ==> key(xs[i]) <= key(xs[j])
  }

  /** The elements of one key, in order. */
  function WithKey<T>(xs: seq<T>, key: T -> int, k: int): seq<T> {
    if xs == [] then []
    else if key(xs[0]) == k then [xs[0]] + WithKey(xs[1..], key, k)
    else WithKey(xs[1..], key, k)
  }

  lemma {:induction false} InsertKeepsOrder<T>(x: T, xs: seq<T>, key: T -> int, k: int)
    requires Sorted(xs, key)
    ensures Sorted(InsertByKey(x, xs, key), key)
    ensures WithKey(InsertByKey(x, xs, key), key, k) == WithKey(xs, key, k) + if key(x) == k then [x] else []
    ensures InsertByKey(x, xs, key)[0] == x || (xs != [] && InsertByKey(x, xs, key)[0] == xs[0])
  {
    var r := InsertByKey(x, xs, key);
    if xs == [] || key(x) < key(xs[0]) {
      assert r[1..] == xs;
      if key(x) == k { NoneWithKey(xs, key, k); }
    } else {
      InsertKeepsOrder(x, xs[1..], key, k);
      assert r[1..] == InsertByKey(x, xs[1..], key);
    }
  }

  lemma {:induction false} NoneWithKey<T>(xs: seq<T>, key: T -> int, k: int)
    requires forall i :: 0 <= i < |xs| ==> key(xs[i]) > k
    ensures WithKey(xs, key, k) == []
  {
    if xs != [] { NoneWithKey(xs[1..], key, k); }
  }

  lemma {:induction false} WithKeyAppend<T>(xs: seq<T>, x: T, key: T -> int, k: int)
    ensures WithKey(xs + [x], key, k) == WithKey(xs, key, k) + if key(x) == k then [x] else []
  {
    if xs == [] {
      assert xs + [x] == [x];
    } else {
      assert (xs + [x])[1..] == xs[1..] + [x];
      WithKeyAppend(xs[1..], x, key, k);
    }
  }

  /** Sorting orders the rows by key and keeps, key by key, the same rows in the same order. */
  lemma {:induction false} SortIsStable<T>(xs: seq<T>, key: T -> int, k: int)
    ensures Sorted(SortByKey(xs, key), key)
    ensures WithKey(SortByKey(xs, key), key, k) == WithKey(xs, key, k)
  {
    if xs != [] {
      var n := |xs| - 1;
      SortIsStable(xs[..n], key, k);
      InsertKeepsOrder(xs[n], SortByKey(xs[..n], key), key, k);
      WithKeyAppend(xs[..n], xs[n], key, k);
      assert xs == xs[..n] + [xs[n]];
    }
  }

  lemma {:induction false} InsertMembers<T>(x: T, xs: seq<T>, key: T -> int, y: T)
    ensures y in InsertByKey(x, xs, key) <==> y == x || y in xs
  {
    if xs != [] && key(x) >= key(xs[0]) { InsertMembers(x, xs[1..], key, y); }
  }

  lemma {:induction false} SortMembers<T>(xs: seq<T>, key: T -> int, y: T)
    ensures y in SortByKey(xs, key) <==> y in xs
  {
    if xs != [] {
      var n := |xs| - 1;
      SortMembers(xs[..n], key, y);
      InsertMembers(xs[n], SortByKey(xs[..n], key), key, y);
      assert xs == xs[..n] + [xs[n]];
    }
  }

  lemma {:induction false} InsertPlace<T>(x: T, xs: seq<T>, key: T -> int) returns (k: nat)
    ensures k <= |xs| && InsertByKey(x, xs, key) == xs[..k] + [x] + xs[k..]
  {
    k := 0;
    if xs != [] && key(x) >= key(xs[0]) {
      var m := InsertPlace(x, xs[1..], key);
      k := m + 1;
      assert xs[..k] == [xs[0]] + xs[1..][..m] && xs[k..] == xs[1..][m..];
    }
  }

  /** `places[i]` is where the i-th sorted element stood before; no two stood at one place. */
  ghost predicate Places<T>(xs: seq<T>, sorted: seq<T>, places: seq<nat>) {
    && |places| == |sorted| == |xs|
    && (forall i :: 0 <= i < |xs| ==> places[i] < |xs| && sorted[i] == xs[places[i]])
    && (forall i, j :: 0 <= i < j < |xs| ==> places[i] != places[j])
  }

  lemma PlacesExtended<T>(xs: seq<T>, x: T, sorted: seq<T>, places: seq<nat>, k: nat)
    requires Places(xs, sorted, places) && k <= |xs|
    ensures Places(xs + [x], sorted[..k] + [x] + sorted[k..], places[..k] + [|xs|] + places[k..])
  {
    var next, sorted' := places[..k] + [|xs|] + places[k..], sorted[..k] + [x] + sorted[k..];
    forall i | 0 <= i < |next| ensures next[i] < |xs| + 1 && sorted'[i] == (xs + [x])[next[i]] {
      if i > k { assert next[i] == places[i - 1] && sorted'[i] == sorted[i - 1]; }
    }
    forall i, j | 0 <= i < j < |next| ensures next[i] != next[j] {
      if i > k {
        assert next[i] == places[i - 1] && next[j] == places[j - 1];
      } else if j > k {
        assert next[j] == places[j - 1];
      }
    }
  }

  lemma {:induction false} SortPlaces<T>(xs: seq<T>, key: T -> int) returns (places: seq<nat>)
    ensures Places(xs, SortByKey(xs, key), places)
  {
    places := [];
    if xs != [] {
      var n := |xs| - 1;
      var before := SortPlaces(xs[..n], key);
      var k := InsertPlace(xs[n], SortByKey(xs[..n], key), key);
      PlacesExtended(xs[..n], xs[n], SortByKey(xs[..n], key), before, k);
      places := before[..k] + [n] + before[k..];
      assert xs == xs[..n] + [xs[n]];
    }
  }

  predicate OwnKey<T>(xs: seq<T>, key: T -> int, p: nat) {
    p < |xs| && forall i :: 0 <= i < |xs| && i != p ==> key(xs[i]) != key(xs[p])
  }

  /** An element with a key of its own is found at one place of the sorted list. */
  lemma OwnKeyPlace<T>(xs: seq<T>, key: T -> int, p: nat, places: seq<nat>) returns (a: nat)
    requires OwnKey(xs, key, p) && Places(xs, SortByKey(xs, key), places)
    ensures a < |xs| && places[a] == p
  {
    var r := SortByKey(xs, key);
    assert xs[p] in xs;
    SortMembers(xs, key, xs[p]);
    a :| 0 <= a < |r| && r[a] == xs[p];
    assert r[a] == xs[places[a]];
  }

  /** Two elements with keys of their own are found in the sorted list, and only the others beside them. */
  lemma SortFinds<T>(xs: seq<T>, key: T -> int, p: nat, q: nat) returns (a: nat, b: nat)
    requires OwnKey(xs, key, p) && OwnKey(xs, key, q) && key(xs[p]) < key(xs[q])
    ensures var r := SortByKey(xs, key);
            a < b < |r| && r[a] == xs[p] && r[b] == xs[q]
            && forall i :: 0 <= i < |r| && i != a && i != b ==>
                 exists o :: 0 <= o < |xs| && o != p && o != q && r[i] == xs[o]
  {
    var r := SortByKey(xs, key);
    var places := SortPlaces(xs, key);
    a := OwnKeyPlace(xs, key, p, places);
    b := OwnKeyPlace(xs, key, q, places);
    SortIsStable(xs, key, 0);
    assert r[a] == xs[p] && r[b] == xs[q];
    assert a < b;
    forall i | 0 <= i < |r| && i != a && i != b
      ensures exists o :: 0 <= o < |xs| && o != p && o != q && r[i] == xs[o]
    {
      assert 0 <= places[i] < |xs| && places[i] != p && places[i] != q && r[i] == xs[places[i]] by {
        assert i < a ==> places[i] != places[a];
        assert i < b ==> places[i] != places[b];
      }
    }
  }
}
