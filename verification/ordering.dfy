/** Selection by key the way Python's `sorted(..., reverse=True)`, `max` and `min`
    pick among equal keys: sorting is stable, and `max`/`min` keep the first of
    several equal extremes. */
module Ordering {
  import opened Seqs

  /** Position `a` comes before position `b` in a stable sort by descending key. */
  predicate Before(keys: seq<int>, a: nat, b: nat)
    requires a < |keys| && b < |keys|
  {
    keys[a] > keys[b] || (keys[a] == keys[b] && a < b)
  }

  predicate Positions(keys: seq<int>, ps: seq<nat>) {
    forall x | x in ps :: x < |keys|
  }

  /** `[0, 1, ..., n-1]`. */
  function Range(n: nat): (r: seq<nat>)
    ensures |r| == n
    ensures forall i | 0 <= i < n :: r[i] == i
  {
    if n == 0 then [] else Range(n - 1) + [n - 1]
  }

  lemma RangeNoDup(n: nat)
    ensures NoDup(Range(n))
    ensures forall q | 0 <= q < n :: q in Range(n)
  {
    forall q | 0 <= q < n
      ensures q in Range(n)
    {
      assert Range(n)[q] == q;
    }
  }

  /** The position among `ps` that a stable descending sort puts first. */
  function Leader(keys: seq<int>, ps: seq<nat>): (p: nat)
    requires |ps| > 0 && Positions(keys, ps)
    ensures p in ps && p < |keys|
    ensures forall q | q in ps && q != p :: Before(keys, p, q)
  {
    if |ps| == 1 then ps[0]
    else
      assert forall q | q in ps[1..] :: q in ps;
      var rest := Leader(keys, ps[1..]);
      assert forall q | q in ps :: q == ps[0] || q in ps[1..];
      assert ps[0] in ps;
      if ps[0] == rest || Before(keys, ps[0], rest) then ps[0] else rest
  }

  /** The first `k` positions of `ps` after a stable sort by descending key. */
  function TopPositions(keys: seq<int>, ps: seq<nat>, k: nat): (r: seq<nat>)
    requires Positions(keys, ps) && NoDup(ps)
    ensures Positions(keys, r) && NoDup(r)
    ensures forall x | x in r :: x in ps
    ensures |r| == if k <= |ps| then k else |ps|
    ensures forall a | 0 <= a < |r| :: r[a] < |keys|
    ensures forall a, b | 0 <= a < b < |r| :: Before(keys, r[a], r[b])
    ensures forall q, x | q in ps && q !in r && x in r :: Before(keys, x, q)
    ensures k >= |ps| ==> forall q | q in ps :: q in r
    decreases k
  {
    if k == 0 || |ps| == 0 then []
    else
      var p := Leader(keys, ps);
      var others := RemoveAll(ps, p);
      RemoveOne(ps, p);
      var rest := TopPositions(keys, others, k - 1);
      LeaderThenRest(keys, ps, p, others, rest);
      [p] + rest
  }

  /** Putting the leader in front of the top positions of the others keeps the
      sort order and leaves every omitted position behind. */
  lemma LeaderThenRest(keys: seq<int>, ps: seq<nat>, p: nat, others: seq<nat>, rest: seq<nat>)
    requires Positions(keys, ps) && p in ps
    requires forall y :: y in others <==> y in ps && y != p
    requires forall q | q in ps && q != p :: Before(keys, p, q)
    requires Positions(keys, rest) && NoDup(rest) && forall x | x in rest :: x in others
    requires forall a | 0 <= a < |rest| :: rest[a] < |keys|
    requires forall a, b | 0 <= a < b < |rest| :: Before(keys, rest[a], rest[b])
    requires forall q, x | q in others && q !in rest && x in rest :: Before(keys, x, q)
    ensures var r := [p] + rest;
      && Positions(keys, r) && NoDup(r)
      && (forall x | x in r :: x in ps)
      && (forall a | 0 <= a < |r| :: r[a] < |keys|)
      && (forall a, b | 0 <= a < b < |r| :: Before(keys, r[a], r[b]))
      && (forall q, x | q in ps && q !in r && x in r :: Before(keys, x, q))
  {
    var r := [p] + rest;
    assert p !in rest;
    assert forall a | 0 < a < |r| :: r[a] == rest[a - 1];
    forall a, b | 0 <= a < b < |r|
      ensures Before(keys, r[a], r[b])
    {
      if a > 0 {
        assert r[a] == rest[a - 1] && r[b] == rest[b - 1];
      } else {
        assert r[b] == rest[b - 1] && rest[b - 1] in rest;
      }
    }
    forall a, b | 0 <= a < b < |r|
      ensures r[a] != r[b]
    {
      if a > 0 {
        assert r[a] == rest[a - 1] && r[b] == rest[b - 1];
      } else {
        assert r[b] == rest[b - 1] && rest[b - 1] in rest;
      }
    }
  }

  /** The first position holding the smallest key (Python's `min` over positions;
      a loop that replaces its best only on a strictly smaller value). */
  function FirstArgMin(xs: seq<int>): (k: nat)
    requires |xs| > 0
    ensures k < |xs|
    ensures forall j | 0 <= j < |xs| :: xs[k] <= xs[j]
    ensures forall j | 0 <= j < k :: xs[k] < xs[j]
  {
    if |xs| == 1 then 0
    else
      var b := FirstArgMin(xs[..|xs| - 1]);
      if xs[|xs| - 1] < xs[b] then |xs| - 1 else b
  }

  /** The first position holding the largest key (Python's `max` with a key). */
  function FirstArgMax(xs: seq<int>): (k: nat)
    requires |xs| > 0
    ensures k < |xs|
    ensures forall j | 0 <= j < |xs| :: xs[j] <= xs[k]
    ensures forall j | 0 <= j < k :: xs[j] < xs[k]
  {
    if |xs| == 1 then 0
    else
      var b := FirstArgMax(xs[..|xs| - 1]);
      if xs[|xs| - 1] > xs[b] then |xs| - 1 else b
  }
}
