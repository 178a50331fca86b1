/** Sequence helpers used across the model: Python list comprehensions that drop
    an element, slicing with Python's negative-bound semantics, and the "no
    duplicates" and "subsequence" relations. */
module Seqs {

  /** `[c for c in s if c != x]`: every copy of `x` is dropped, order is kept. */
  function RemoveAll<T(==,!new)>(s: seq<T>, x: T): (r: seq<T>)
    ensures multiset(r) == multiset(s)[x := 0]
    ensures forall y :: y in r <==> y in s && y != x
    ensures x in s ==> |r| < |s|
    ensures Subseq(r, s)
  {
    if |s| == 0 then []
    else
      var rest := RemoveAll(s[1..], x);
      RemoveAllCons(s, x, rest);
      if s[0] == x then rest else [s[0]] + rest
  }

  /** One step of `RemoveAll`: the head is dropped or kept in front of the rest. */
  lemma RemoveAllCons<T>(s: seq<T>, x: T, rest: seq<T>)
    requires |s| > 0
    requires multiset(rest) == multiset(s[1..])[x := 0]
    requires forall y :: y in rest <==> y in s[1..] && y != x
    requires x in s[1..] ==> |rest| < |s| - 1
    requires Subseq(rest, s[1..])
    ensures var r := if s[0] == x then rest else [s[0]] + rest;
      && multiset(r) == multiset(s)[x := 0]
      && (forall y :: y in r <==> y in s && y != x)
      && (x in s ==> |r| < |s|)
      && Subseq(r, s)
  {
    assert s == [s[0]] + s[1..];
    RemoveAllConsCounts(s, x, rest);
    RemoveAllConsSubseq(s, x, rest);
  }

  lemma RemoveAllConsCounts<T>(s: seq<T>, x: T, rest: seq<T>)
    requires |s| > 0 && s == [s[0]] + s[1..]
    requires multiset(rest) == multiset(s[1..])[x := 0]
    ensures var r := if s[0] == x then rest else [s[0]] + rest;
      multiset(r) == multiset(s)[x := 0]
  {
    assert multiset(s) == multiset{s[0]} + multiset(s[1..]);
  }

  lemma RemoveAllConsSubseq<T>(s: seq<T>, x: T, rest: seq<T>)
    requires |s| > 0
    requires forall y :: y in rest ==> y != x
    requires Subseq(rest, s[1..])
    ensures var r := if s[0] == x then rest else [s[0]] + rest;
      Subseq(r, s)
  {
    if s[0] == x {
      assert rest != [] ==> rest[0] in rest && rest[0] != s[0];
    } else {
      assert ([s[0]] + rest)[1..] == rest;
    }
  }

  /** `a` can be obtained from `b` by deleting elements. */
  predicate Subseq<T(==)>(a: seq<T>, b: seq<T>)
    decreases |b|
  {
    if |a| == 0 then true
    else if |b| == 0 then false
    else if a[0] == b[0] then Subseq(a[1..], b[1..])
    else Subseq(a, b[1..])
  }

  lemma {:induction false} SubseqMembers<T>(a: seq<T>, b: seq<T>)
    requires Subseq(a, b)
    ensures forall y :: y in a ==> y in b
    ensures |a| <= |b|
    decreases |b|
  {
    if |a| > 0 {
      if a[0] == b[0] {
        SubseqMembers(a[1..], b[1..]);
        assert a == [a[0]] + a[1..];
        assert b == [b[0]] + b[1..];
      } else {
        SubseqMembers(a, b[1..]);
      }
    }
  }

  lemma {:induction false} SubseqRefl<T>(a: seq<T>)
    ensures Subseq(a, a)
    decreases |a|
  {
    if |a| > 0 {
      SubseqRefl(a[1..]);
    }
  }

  /** Pairwise-distinct elements. */
  predicate NoDup<T(==)>(s: seq<T>) {
    forall i, j | 0 <= i < j < |s| :: s[i] != s[j]
  }

  lemma NoDupCount<T>(s: seq<T>, x: T)
    requires NoDup(s)
    requires x in s
    ensures multiset(s)[x] == 1
  {
    var k :| 0 <= k < |s| && s[k] == x;
    assert s == s[..k] + [x] + s[k + 1..];
    assert x !in s[..k];
    assert x !in s[k + 1..];
    calc {
      multiset(s)[x];
      multiset(s[..k])[x] + multiset([x])[x] + multiset(s[k + 1..])[x];
      0 + 1 + 0;
    }
  }

  /** Two equal elements at distinct positions occur at least twice. */
  lemma DupCount<T>(xs: seq<T>, i: int, j: int)
    requires 0 <= i < j < |xs|
    ensures xs[i] == xs[j] ==> multiset(xs)[xs[i]] >= 2
  {
    assert xs == xs[..i] + [xs[i]] + xs[i + 1..j] + [xs[j]] + xs[j + 1..];
  }

  /** A sequence whose elements each occur at most once has no duplicates. */
  lemma CountsNoDup<T>(xs: seq<T>)
    requires forall c :: multiset(xs)[c] <= 1
    ensures NoDup(xs)
  {
    forall i, j | 0 <= i < j < |xs|
      ensures xs[i] != xs[j]
    {
      DupCount(xs, i, j);
    }
  }

  /** Having no duplicates depends only on the multiset of elements. */
  lemma NoDupPermutation<T>(a: seq<T>, b: seq<T>)
    requires NoDup(a) && multiset(a) == multiset(b)
    ensures NoDup(b)
  {
    forall c
      ensures multiset(b)[c] <= 1
    {
      if c in a {
        NoDupCount(a, c);
      }
    }
    CountsNoDup(b);
  }

  /** Deleting elements keeps a sequence duplicate-free. */
  lemma {:induction false} SubseqNoDup<T>(a: seq<T>, b: seq<T>)
    requires Subseq(a, b) && NoDup(b)
    ensures NoDup(a)
    decreases |b|
  {
    if |a| > 0 {
      assert NoDup(b[1..]);
      if a[0] == b[0] {
        SubseqNoDup(a[1..], b[1..]);
        SubseqMembers(a[1..], b[1..]);
        assert b[0] !in b[1..];
        forall i, j | 0 <= i < j < |a|
          ensures a[i] != a[j]
        {
          if i > 0 {
            assert a[i] == a[1..][i - 1] && a[j] == a[1..][j - 1];
          } else {
            assert a[j] == a[1..][j - 1];
            assert a[j] in a[1..];
          }
        }
      } else {
        SubseqNoDup(a, b[1..]);
      }
    }
  }

  lemma {:induction false} RemoveAllNoDup<T(!new)>(s: seq<T>, x: T)
    requires NoDup(s)
    ensures NoDup(RemoveAll(s, x))
    decreases |s|
  {
    if |s| > 0 {
      RemoveAllNoDup(s[1..], x);
      var rest := RemoveAll(s[1..], x);
      if s[0] != x {
        assert s[0] !in s[1..];
        assert RemoveAll(s, x) == [s[0]] + rest;
      }
    }
  }

  /** Removing a member of a duplicate-free sequence removes exactly one element. */
  lemma RemoveOne<T(!new)>(s: seq<T>, x: T)
    requires NoDup(s) && x in s
    ensures NoDup(RemoveAll(s, x))
    ensures |RemoveAll(s, x)| == |s| - 1
  {
    RemoveAllNoDup(s, x);
    NoDupCount(s, x);
    assert multiset(s) == multiset(RemoveAll(s, x)) + multiset{x};
    assert |multiset(s)| == |multiset(RemoveAll(s, x))| + 1;
  }

  lemma PrefixNoDup<T>(s: seq<T>, n: nat)
    requires NoDup(s) && n <= |s|
    ensures NoDup(s[..n])
  {
    assert forall i | 0 <= i < n :: s[..n][i] == s[i];
  }

  /** Python's `xs[:n]`: a negative `n` counts from the end. */
  function SliceTo<T>(xs: seq<T>, n: int): (r: seq<T>)
    ensures n >= 0 ==> |r| == if n <= |xs| then n else |xs|
    ensures n < 0 ==> |r| == if |xs| + n >= 0 then |xs| + n else 0
    ensures r == xs[..|r|]
  {
    if n >= 0 then (if n <= |xs| then xs[..n] else xs)
    else (if |xs| + n >= 0 then xs[..|xs| + n] else [])
  }
}
