/** Sorting by a key, as the library's `sorted` answers it. */
module Sorting {
  predicate OrderedBy<T>(s: seq<T>, key: T -> int) {
    forall i, j | 0 <= i < j < |s| :: key(s[i]) <= key(s[j])
  }

  function InsertedAt<T>(s: seq<T>, k: nat, x: T): (longer: seq<T>)
    requires k <= |s|
    ensures |longer| == |s| + 1
    ensures forall i | 0 <= i < |longer| :: longer[i] == if i < k then s[i] else if i == k then x else s[i - 1]
  {
    s[..k] + [x] + s[k..]
  }

  lemma InsertionAddsOne<T>(s: seq<T>, k: nat, x: T)
    requires k <= |s|
    ensures multiset(InsertedAt(s, k, x)) == multiset(s) + multiset{x}
  {
    assert s == s[..k] + s[k..];
  }

  /** The elements with a given key, in order. */
  function WithKey<T>(s: seq<T>, key: T -> int, k: int): seq<T> {
    if s == [] then []
    else WithKey(s[..|s| - 1], key, k) + (if key(s[|s| - 1]) == k then [s[|s| - 1]] else [])
  }

  lemma {:induction false} WithKeyAppend<T>(a: seq<T>, b: seq<T>, key: T -> int, k: int)
    ensures WithKey(a + b, key, k) == WithKey(a, key, k) + WithKey(b, key, k)
  {
    if b == [] {
      assert a + b == a;
    } else {
      WithKeyAppend(a, b[..|b| - 1], key, k);
      assert (a + b)[..|a + b| - 1] == a + b[..|b| - 1];
    }
  }

  lemma {:induction false} WithoutKey<T>(s: seq<T>, key: T -> int, k: int)
    requires forall i | 0 <= i < |s| :: key(s[i]) != k
    ensures WithKey(s, key, k) == []
  {
    if s != [] {
      WithoutKey(s[..|s| - 1], key, k);
    }
  }

  /** Elements with equal keys keep their order. */
  ghost predicate SameOrder<T>(s: seq<T>, t: seq<T>, key: T -> int) {
    forall k :: WithKey(s, key, k) == WithKey(t, key, k)
  }

  lemma InsertionKeepsKey<T>(a: seq<T>, b: seq<T>, x: T, key: T -> int, k: int)
    requires forall j | 0 <= j < |b| :: key(b[j]) > key(x)
    ensures WithKey(a + [x] + b, key, k) == WithKey(a + b + [x], key, k)
  {
    WithKeyAppend(a + [x], b, key, k);
    WithKeyAppend(a, [x], key, k);
    WithKeyAppend(a + b, [x], key, k);
    WithKeyAppend(a, b, key, k);
    if k == key(x) {
      WithoutKey(b, key, k);
    } else {
      WithoutKey([x], key, k);
    }
  }

  lemma InsertionKeepsOrder<T>(s: seq<T>, n: nat, x: T, key: T -> int)
    requires n <= |s| && forall j | n <= j < |s| :: key(s[j]) > key(x)
    ensures SameOrder(InsertedAt(s, n, x), s + [x], key)
  {
    assert s == s[..n] + s[n..];
    forall k ensures WithKey(InsertedAt(s, n, x), key, k) == WithKey(s + [x], key, k) {
      InsertionKeepsKey(s[..n], s[n..], x, key, k);
    }
  }

  lemma AppendKeepsOrder<T>(s: seq<T>, t: seq<T>, x: T, key: T -> int)
    requires SameOrder(s, t, key)
    ensures SameOrder(s + [x], t + [x], key)
  {
    forall k ensures WithKey(s + [x], key, k) == WithKey(t + [x], key, k) {
      WithKeyAppend(s, [x], key, k);
      WithKeyAppend(t, [x], key, k);
    }
  }

  method Insert<T>(s: seq<T>, key: T -> int, x: T) returns (longer: seq<T>)
    requires OrderedBy(s, key)
    ensures OrderedBy(longer, key) && multiset(longer) == multiset(s) + multiset{x}
    ensures SameOrder(longer, s + [x], key)
  {
    var k := |s|;
    while k > 0 && key(s[k - 1]) > key(x)
      invariant 0 <= k <= |s|
      invariant forall j | k <= j < |s| :: key(s[j]) > key(x)
    {
      k := k - 1;
    }
    longer := InsertedAt(s, k, x);
    InsertionAddsOne(s, k, x);
    InsertionKeepsOrder(s, k, x, key);
  }

  method SortBy<T>(s: seq<T>, key: T -> int) returns (sorted: seq<T>)
    ensures OrderedBy(sorted, key) && multiset(sorted) == multiset(s) && SameOrder(sorted, s, key)
  {
    sorted := [];
    for i := 0 to |s|
      invariant OrderedBy(sorted, key) && multiset(sorted) == multiset(s[..i]) && SameOrder(sorted, s[..i], key)
    {
      AppendKeepsOrder(sorted, s[..i], s[i], key);
      assert s[..i + 1] == s[..i] + [s[i]];
      sorted := Insert(sorted, key, s[i]);
    }
    assert s[..|s|] == s;
  }
}
