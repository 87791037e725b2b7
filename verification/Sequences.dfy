/** Sums, concatenations and rearrangements of sequences. */
module Sequences {
  function Sum(s: seq<int>): int {
    if s == [] then 0 else Sum(s[..|s| - 1]) + s[|s| - 1]
  }

  lemma {:induction false} SumAppend(a: seq<int>, b: seq<int>)
    ensures Sum(a + b) == Sum(a) + Sum(b)
  {
    if b == [] {
      assert a + b == a;
    } else {
      SumAppend(a, b[..|b| - 1]);
      assert (a + b)[..|a + b| - 1] == a + b[..|b| - 1];
    }
  }

  function Without<T>(s: seq<T>, i: nat): seq<T>
    requires i < |s|
  {
    s[..i] + s[i + 1..]
  }

  lemma {:induction false} SumSplits(s: seq<int>, i: nat)
    requires i < |s|
    ensures Sum(s) == s[i] + Sum(Without(s, i))
  {
    var init := s[..|s| - 1];
    if i < |init| {
      SumSplits(init, i);
      assert Without(s, i)[..|s| - 2] == Without(init, i);
    } else {
      assert Without(s, i) == init;
    }
  }

  function Flatten<T>(ss: seq<seq<T>>): seq<T> {
    if ss == [] then [] else Flatten(ss[..|ss| - 1]) + ss[|ss| - 1]
  }

  lemma {:induction false} FlattenAppend<T>(a: seq<seq<T>>, b: seq<seq<T>>)
    ensures Flatten(a + b) == Flatten(a) + Flatten(b)
  {
    if b == [] {
      assert a + b == a;
    } else {
      FlattenAppend(a, b[..|b| - 1]);
      assert (a + b)[..|a + b| - 1] == a + b[..|b| - 1];
    }
  }

  predicate Distinct<T(==)>(s: seq<T>) {
    forall i, j | 0 <= i < j < |s| :: s[i] != s[j]
  }

  /** The sequence of s's elements, duplicates counted, is unchanged by removing and re-adding one. */
  lemma MultisetSplits<T>(s: seq<T>, i: nat)
    requires i < |s|
    ensures multiset(s) == multiset{s[i]} + multiset(Without(s, i))
  {
    assert s == s[..i] + ([s[i]] + s[i + 1..]);
  }

  lemma SameWithoutLast<T>(a: seq<T>, b: seq<T>, last: nat)
    requires |a| == |b| == last + 1 && multiset(a) == multiset(b) && a[last] == b[last]
    ensures multiset(a[..last]) == multiset(b[..last])
  {
    assert a == a[..last] + [a[last]] && b == b[..last] + [b[last]];
    assert multiset(a[..last]) == multiset(a) - multiset{a[last]} == multiset(b[..last]);
  }

  /** Removing one occurrence of the same element from both leaves the same elements. */
  lemma SameWithout<T>(a: seq<T>, last: nat, b: seq<T>, k: nat)
    requires |a| == last + 1 && k < |b| && multiset(a) == multiset(b) && a[last] == b[k]
    ensures multiset(a[..last]) == multiset(Without(b, k))
  {
    MultisetSplits(b, k);
    assert a == a[..last] + [a[last]];
    assert multiset(a[..last]) == multiset(a) - multiset{a[last]};
  }

  lemma IndexOf<T>(s: seq<T>, x: T) returns (i: nat)
    requires x in multiset(s)
    ensures i < |s| && s[i] == x
  {
    i :| 0 <= i < |s| && s[i] == x;
  }

  /** p lists each index below n once. */
  predicate Permutation(p: seq<int>, n: nat) {
    |p| == n && (forall i | 0 <= i < n :: 0 <= p[i] < n) && Distinct(p)
  }

  function UpTo(n: nat): (s: seq<int>)
    ensures |s| == n && forall i | 0 <= i < n :: s[i] == i
  {
    seq(n, i requires 0 <= i < n => i)
  }

  lemma {:induction false} ElementsOf(s: seq<int>)
    requires Distinct(s)
    ensures |set x | x in s| == |s| && multiset(s) == multiset(set x | x in s)
  {
    if s != [] {
      var init, last := s[..|s| - 1], s[|s| - 1];
      ElementsOf(init);
      assert s == init + [last];
      assert (set x | x in s) == (set x | x in init) + {last};
    }
  }

  lemma SameCardinality<T>(a: set<T>, b: set<T>)
    requires a <= b && |a| == |b|
    ensures a == b
  {
    assert |b| == |a| + |b - a| by {
      assert b == a + (b - a);
    }
  }

  /** A permutation of n lists every number below n. */
  lemma PermutationListsAll(p: seq<int>, n: nat)
    requires Permutation(p, n)
    ensures multiset(p) == multiset(UpTo(n))
  {
    ElementsOf(p);
    ElementsOf(UpTo(n));
    var all := set x | x in UpTo(n);
    forall x | x in p ensures x in all {
      assert UpTo(n)[x] == x;
    }
    var listed := set x | x in p;
    SameCardinality(listed, all);
  }

  lemma PositionOf(q: seq<int>, n: nat, x: nat) returns (i: nat)
    requires Permutation(q, n) && x < n
    ensures i < n && q[i] == x
  {
    PermutationListsAll(q, n);
    assert UpTo(n)[x] == x;
    assert x in multiset(UpTo(n));
    i := IndexOf(q, x);
  }

  /** Indices into a sequence without position k, as indices into the whole sequence. */
  function Widen(q: seq<int>, k: int): (p: seq<int>)
    ensures |p| == |q| && forall i | 0 <= i < |q| :: p[i] == if q[i] < k then q[i] else q[i] + 1
  {
    seq(|q|, i requires 0 <= i < |q| => if q[i] < k then q[i] else q[i] + 1)
  }

  lemma WidenIsPermutation(q: seq<int>, k: int, n: nat)
    requires Permutation(q, n) && 0 <= k <= n
    ensures Permutation(Widen(q, k) + [k], n + 1)
  {
  }

  /** Sequences with the same elements are rearrangements of each other. */
  lemma {:induction false} Rearrangement<T>(s: seq<T>, t: seq<T>) returns (p: seq<int>)
    requires multiset(s) == multiset(t)
    ensures |s| == |t| && Permutation(p, |t|)
    ensures forall i | 0 <= i < |t| :: t[i] == s[p[i]]
    decreases |s|
  {
    assert |s| == |multiset(s)| && |t| == |multiset(t)|;
    if t == [] {
      p := [];
    } else {
      var last := |t| - 1;
      assert t[last] in multiset(s);
      var k := IndexOf(s, t[last]);
      SameWithout(t, last, s, k);
      var q := Rearrangement(Without(s, k), t[..last]);
      p := Widen(q, k) + [k];
      WidenIsPermutation(q, k, last);
      forall i | 0 <= i < |t| ensures t[i] == s[p[i]] {
        if i < last {
          assert t[..last][i] == Without(s, k)[q[i]];
        }
      }
    }
  }

  /** The values of a dictionary at the given keys. */
  function Lookup<K>(keys: seq<K>, d: map<K, int>): (values: seq<int>)
    requires forall i | 0 <= i < |keys| :: keys[i] in d
    ensures |values| == |keys| && forall i | 0 <= i < |keys| :: values[i] == d[keys[i]]
  {
    seq(|keys|, i requires 0 <= i < |keys| => d[keys[i]])
  }

  /** Reordering the keys does not change the sum of their values. */
  lemma {:induction false} SumOfReordered<K>(a: seq<K>, b: seq<K>, d: map<K, int>)
    requires multiset(a) == multiset(b)
    requires forall i | 0 <= i < |a| :: a[i] in d
    requires forall i | 0 <= i < |b| :: b[i] in d
    ensures Sum(Lookup(a, d)) == Sum(Lookup(b, d))
    decreases |a|
  {
    assert |a| == |multiset(a)| && |b| == |multiset(b)|;
    if a != [] {
      var last := |a| - 1;
      assert a[last] in multiset(b);
      var k := IndexOf(b, a[last]);
      SameWithout(a, last, b, k);
      SumOfReordered(a[..last], Without(b, k), d);
      assert Lookup(a, d)[..last] == Lookup(a[..last], d);
      assert Lookup(Without(b, k), d) == Without(Lookup(b, d), k);
      SumSplits(Lookup(b, d), k);
    }
  }
}
