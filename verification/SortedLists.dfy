/** Stable sorting by an integer key, and why distinct keys make the input order irrelevant. */
module SortedLists {
  predicate Ascending<T>(s: seq<T>, key: T -> int) {
    forall i, j :: 0 <= i < j < |s| ==> key(s[i]) <= key(s[j])
  }

  predicate Strict<T>(s: seq<T>, key: T -> int) {
    forall i, j :: 0 <= i < j < |s| ==> key(s[i]) < key(s[j])
  }

  predicate DistinctKeys<T>(s: seq<T>, key: T -> int) {
    forall i, j :: 0 <= i < j < |s| ==> key(s[i]) != key(s[j])
  }

  function Insert<T>(s: seq<T>, x: T, key: T -> int): (r: seq<T>)
    ensures |r| == |s| + 1
  {
    if s != [] && key(x) < key(s[|s| - 1]) then Insert(s[..|s| - 1], x, key) + [s[|s| - 1]] else s + [x]
  }

  function SortBy<T>(s: seq<T>, key: T -> int): (r: seq<T>)
    ensures |r| == |s|
  {
    if s == [] then [] else Insert(SortBy(s[..|s| - 1], key), s[|s| - 1], key)
  }

  lemma {:induction false} InsertKeeps<T>(s: seq<T>, x: T, key: T -> int)
    ensures multiset(Insert(s, x, key)) == multiset(s) + multiset{x}
  {
    if s != [] && key(x) < key(s[|s| - 1]) {
      assert s == s[..|s| - 1] + [s[|s| - 1]];
      InsertKeeps(s[..|s| - 1], x, key);
    }
  }

  lemma {:induction false} InsertOrders<T>(s: seq<T>, x: T, key: T -> int)
    requires Ascending(s, key)
    ensures Ascending(Insert(s, x, key), key)
    ensures forall i :: 0 <= i <= |s| ==> key(Insert(s, x, key)[i]) <= key(x) || (s != [] && key(Insert(s, x, key)[i]) <= key(s[|s| - 1]))
  {
    if s != [] && key(x) < key(s[|s| - 1]) {
      InsertOrders(s[..|s| - 1], x, key);
    }
  }

  /** Sorting permutes the list and orders it. */
  lemma {:induction false} SortByOrders<T>(s: seq<T>, key: T -> int)
    ensures multiset(SortBy(s, key)) == multiset(s)
    ensures Ascending(SortBy(s, key), key)
  {
    if s != [] {
      SortByOrders(s[..|s| - 1], key);
      InsertKeeps(SortBy(s[..|s| - 1], key), s[|s| - 1], key);
      InsertOrders(SortBy(s[..|s| - 1], key), s[|s| - 1], key);
      assert s == s[..|s| - 1] + [s[|s| - 1]];
    }
  }

  lemma DistinctSorts<T>(s: seq<T>, key: T -> int)
    requires DistinctKeys(s, key)
    ensures Strict(SortBy(s, key), key)
  {
    var sorted := SortBy(s, key);
    SortByOrders(s, key);
    forall i, j | 0 <= i < j < |sorted|
      ensures key(sorted[i]) < key(sorted[j])
    {
      if key(sorted[i]) == key(sorted[j]) {
        KeyIsUnique(s, sorted, key, i, j);
      }
    }
  }

  /** A permutation of a list with distinct keys has distinct keys. */
  lemma KeyIsUnique<T>(s: seq<T>, t: seq<T>, key: T -> int, i: nat, j: nat)
    requires DistinctKeys(s, key) && multiset(s) == multiset(t) && i < j < |t|
    ensures key(t[i]) != key(t[j])
  {
    if t[i] == t[j] {
      CountTwice(t, i, j);
      CountOnce(s, key, t[i]);
    } else {
      assert t[i] in multiset(t) && t[j] in multiset(t);
      var a :| 0 <= a < |s| && s[a] == t[i];
      var b :| 0 <= b < |s| && s[b] == t[j];
    }
  }

  lemma {:induction false} CountOnce<T>(s: seq<T>, key: T -> int, x: T)
    requires DistinctKeys(s, key)
    ensures multiset(s)[x] <= 1
  {
    if s != [] {
      var n := |s| - 1;
      CountOnce(s[..n], key, x);
      assert s == s[..n] + [s[n]];
      assert forall i :: 0 <= i < n ==> s[..n][i] != s[n];
    }
  }

  lemma CountTwice<T>(t: seq<T>, i: nat, j: nat)
    requires i < j < |t| && t[i] == t[j]
    ensures multiset(t)[t[i]] >= 2
  {
    assert t == t[..j] + [t[j]] + t[j + 1..];
    assert t[..j][i] == t[j];
    assert t[i] in multiset(t[..j]);
  }

  lemma FirstIsLeast<T>(a: seq<T>, b: seq<T>, key: T -> int)
    requires Strict(a, key) && Strict(b, key) && multiset(a) == multiset(b) && a != []
    ensures b != [] && a[0] == b[0]
  {
    assert a[0] in multiset(b);
    var i :| 0 <= i < |b| && b[i] == a[0];
    assert b[0] in multiset(a);
    var j :| 0 <= j < |a| && a[j] == b[0];
  }

  lemma WithoutFirst<T>(a: seq<T>)
    requires a != []
    ensures multiset(a[1..]) == multiset(a) - multiset{a[0]}
  {
    assert a == [a[0]] + a[1..];
  }

  /** Two strictly ordered lists of the same elements are the same list. */
  lemma {:induction false} StrictIsUnique<T>(a: seq<T>, b: seq<T>, key: T -> int)
    requires Strict(a, key) && Strict(b, key) && multiset(a) == multiset(b)
    ensures a == b
  {
    if a == [] {
      assert |multiset(b)| == |b|;
    } else {
      FirstIsLeast(a, b, key);
      WithoutFirst(a);
      WithoutFirst(b);
      StrictIsUnique(a[1..], b[1..], key);
      assert a == [a[0]] + a[1..] && b == [b[0]] + b[1..];
    }
  }

  /** With distinct keys, every order of the input sorts to the same list. */
  lemma SortIgnoresOrder<T>(a: seq<T>, b: seq<T>, key: T -> int)
    requires multiset(a) == multiset(b) && DistinctKeys(a, key)
    ensures SortBy(a, key) == SortBy(b, key) && DistinctKeys(b, key)
  {
    forall i, j | 0 <= i < j < |b|
      ensures key(b[i]) != key(b[j])
    {
      KeyIsUnique(a, b, key, i, j);
    }
    DistinctSorts(a, key);
    DistinctSorts(b, key);
    SortByOrders(a, key);
    SortByOrders(b, key);
    StrictIsUnique(SortBy(a, key), SortBy(b, key), key);
  }

  // ---------------------------------------------------------------- dictionaries of lists

  /** What a dictionary of lists holds for one key: the elements with that key, in input order. */
  function At<T>(s: seq<T>, k: int, key: T -> int): (r: seq<T>)
    ensures forall x :: x in r ==> x in s && key(x) == k
  {
    if s == [] then []
    else At(s[..|s| - 1], k, key) + (if key(s[|s| - 1]) == k then [s[|s| - 1]] else [])
  }

  /** The keys, in order of first appearance. */
  function KeysOf<T>(s: seq<T>, key: T -> int): seq<int> {
    if s == [] then []
    else
      var keys := KeysOf(s[..|s| - 1], key);
      if key(s[|s| - 1]) in keys then keys else keys + [key(s[|s| - 1])]
  }

  function Same(k: int): int { k }

  function SortedKeys<T>(s: seq<T>, key: T -> int): seq<int> {
    SortBy(KeysOf(s, key), Same)
  }

  function Mapped<T, U>(s: seq<T>, f: T -> U): (r: seq<U>)
    ensures |r| == |s|
    ensures forall i :: 0 <= i < |s| ==> r[i] == f(s[i])
  {
    seq(|s|, i requires 0 <= i < |s| => f(s[i]))
  }

  predicate Inhabited<T>(s: seq<T>, keys: seq<int>, key: T -> int) {
    forall k :: k in keys ==> At(s, k, key) != []
  }

  lemma {:induction false} KeysAreInhabited<T>(s: seq<T>, key: T -> int)
    ensures forall k :: k in KeysOf(s, key) <==> At(s, k, key) != []
    ensures DistinctKeys(KeysOf(s, key), Same)
  {
    if s != [] {
      KeysAreInhabited(s[..|s| - 1], key);
    }
  }

  /** The sorted keys are the keys in use, each once. */
  lemma SortedKeysAreTheKeys<T>(s: seq<T>, key: T -> int)
    ensures Inhabited(s, SortedKeys(s, key), key)
    ensures forall k :: k in SortedKeys(s, key) <==> At(s, k, key) != []
    ensures Strict(SortedKeys(s, key), Same)
  {
    KeysAreInhabited(s, key);
    DistinctSorts(KeysOf(s, key), Same);
    SortByOrders(KeysOf(s, key), Same);
    forall k
      ensures k in SortedKeys(s, key) <==> k in KeysOf(s, key)
    {
      assert k in SortedKeys(s, key) <==> k in multiset(SortedKeys(s, key));
    }
  }

  lemma {:induction false} AtOfSum<T>(s: seq<T>, t: seq<T>, k: int, key: T -> int)
    ensures At(s + t, k, key) == At(s, k, key) + At(t, k, key)
  {
    if t == [] {
      assert s + t == s;
    } else {
      AtOfSum(s, t[..|t| - 1], k, key);
      assert (s + t)[..|s + t| - 1] == s + t[..|t| - 1];
    }
  }

  lemma Without<T>(b: seq<T>, x: T) returns (i: nat)
    requires x in multiset(b)
    ensures i < |b| && b[i] == x
    ensures multiset(b[..i] + b[i + 1..]) == multiset(b) - multiset{x}
  {
    i :| i < |b| && b[i] == x;
    assert b == b[..i] + ([b[i]] + b[i + 1..]);
  }

  lemma SameMembers<T>(a: seq<T>, b: seq<T>)
    requires multiset(a) == multiset(b)
    ensures forall x :: x in a <==> x in b
  {
    forall x
      ensures x in a <==> x in b
    {
      assert x in a <==> x in multiset(a);
      assert x in b <==> x in multiset(b);
    }
  }

  /** A permutation of the input permutes what each key holds. */
  lemma {:induction false} AtIgnoresOrder<T>(a: seq<T>, b: seq<T>, k: int, key: T -> int)
    requires multiset(a) == multiset(b)
    ensures multiset(At(a, k, key)) == multiset(At(b, k, key))
  {
    if a == [] {
      EmptyTogether(a, b);
    } else {
      var n := |a| - 1;
      assert a == a[..n] + [a[n]];
      var i := Without(b, a[n]);
      assert b == b[..i] + ([b[i]] + b[i + 1..]);
      AtIgnoresOrder(a[..n], b[..i] + b[i + 1..], k, key);
      AtOfSum(a[..n], [a[n]], k, key);
      AtOfSum(b[..i], [b[i]] + b[i + 1..], k, key);
      AtOfSum([b[i]], b[i + 1..], k, key);
      AtOfSum(b[..i], b[i + 1..], k, key);
    }
  }

  lemma EmptyTogether<T>(a: seq<T>, b: seq<T>)
    requires multiset(a) == multiset(b)
    ensures |a| == |b|
  {
    assert |multiset(a)| == |a|;
    assert |multiset(b)| == |b|;
  }

  lemma SortedKeysIgnoreOrder<T>(a: seq<T>, b: seq<T>, key: T -> int)
    requires multiset(a) == multiset(b)
    ensures SortedKeys(a, key) == SortedKeys(b, key)
  {
    var x, y := KeysOf(a, key), KeysOf(b, key);
    KeysAreInhabited(a, key);
    KeysAreInhabited(b, key);
    forall k
      ensures multiset(x)[k] == multiset(y)[k]
    {
      AtIgnoresOrder(a, b, k, key);
      EmptyTogether(At(a, k, key), At(b, k, key));
      CountOnce(x, Same, k);
      CountOnce(y, Same, k);
      assert k in x <==> k in multiset(x);
      assert k in y <==> k in multiset(y);
    }
    assert multiset(x) == multiset(y);
    SortIgnoresOrder(x, y, Same);
  }

  lemma {:induction false} AtStaysDistinct<T>(s: seq<T>, k: int, key: T -> int, id: T -> int)
    requires DistinctKeys(s, id)
    ensures DistinctKeys(At(s, k, key), id)
  {
    if s != [] {
      var n := |s| - 1;
      AtStaysDistinct(s[..n], k, key, id);
      forall x | x in At(s[..n], k, key)
        ensures id(x) != id(s[n])
      {
        assert x in s[..n];
      }
    }
  }

  /** With distinct keys, a key holds at most one element. */
  lemma {:induction false} AtMostOne<T>(s: seq<T>, k: int, key: T -> int)
    requires DistinctKeys(s, key)
    ensures |At(s, k, key)| <= 1
  {
    if s != [] {
      var n := |s| - 1;
      AtMostOne(s[..n], k, key);
      assert At(s[..n], k, key) != [] ==> At(s[..n], k, key)[0] in s[..n];
    }
  }

  lemma {:induction false} MappedInsert<T, U>(s: seq<T>, x: T, f: T -> U, key: T -> int, image: U -> int)
    requires forall y :: image(f(y)) == key(y)
    ensures Mapped(Insert(s, x, key), f) == Insert(Mapped(s, f), f(x), image)
  {
    if s != [] && key(x) < key(s[|s| - 1]) {
      MappedInsert(s[..|s| - 1], x, f, key, image);
      assert Mapped(s, f)[..|s| - 1] == Mapped(s[..|s| - 1], f);
    }
  }

  lemma {:induction false} MappedSort<T, U>(s: seq<T>, f: T -> U, key: T -> int, image: U -> int)
    requires forall y :: image(f(y)) == key(y)
    ensures Mapped(SortBy(s, key), f) == SortBy(Mapped(s, f), image)
  {
    if s != [] {
      var n := |s| - 1;
      MappedSort(s[..n], f, key, image);
      MappedInsert(SortBy(s[..n], key), s[n], f, key, image);
      assert Mapped(s, f)[..n] == Mapped(s[..n], f);
    }
  }

  lemma {:induction false} MappedAt<T, U>(s: seq<T>, k: int, f: T -> U, key: T -> int, image: U -> int)
    requires forall y :: image(f(y)) == key(y)
    ensures Mapped(At(s, k, key), f) == At(Mapped(s, f), k, image)
    ensures KeysOf(s, key) == KeysOf(Mapped(s, f), image)
  {
    if s != [] {
      MappedAt(s[..|s| - 1], k, f, key, image);
      assert Mapped(s, f)[..|s| - 1] == Mapped(s[..|s| - 1], f);
    }
  }

  lemma {:induction false} AtHolds<T>(s: seq<T>, k: int, key: T -> int, x: T)
    requires x in s && key(x) == k
    ensures x in At(s, k, key)
  {
    if x != s[|s| - 1] {
      AtHolds(s[..|s| - 1], k, key, x);
    }
  }

  lemma MappedWithout<T, U>(b: seq<T>, i: nat, f: T -> U)
    requires i < |b|
    ensures multiset(Mapped(b, f)) == multiset(Mapped(b[..i] + b[i + 1..], f)) + multiset{f(b[i])}
  {
    assert Mapped(b, f) == Mapped(b[..i], f) + ([f(b[i])] + Mapped(b[i + 1..], f));
    assert Mapped(b[..i] + b[i + 1..], f) == Mapped(b[..i], f) + Mapped(b[i + 1..], f);
  }

  lemma MappedWithoutLast<T, U>(a: seq<T>, n: nat, f: T -> U)
    requires a != [] && n == |a| - 1
    ensures multiset(Mapped(a, f)) == multiset(Mapped(a[..n], f)) + multiset{f(a[n])}
  {
    assert Mapped(a, f) == Mapped(a[..n], f) + [f(a[n])];
  }

  lemma {:induction false} MappedIgnoresOrder<T, U>(a: seq<T>, b: seq<T>, f: T -> U)
    requires multiset(a) == multiset(b)
    ensures multiset(Mapped(a, f)) == multiset(Mapped(b, f))
  {
    EmptyTogether(a, b);
    if a != [] {
      var n := |a| - 1;
      assert a == a[..n] + [a[n]];
      var i := Without(b, a[n]);
      MappedIgnoresOrder(a[..n], b[..i] + b[i + 1..], f);
      MappedWithout(b, i, f);
      MappedWithoutLast(a, n, f);
    }
  }
}
