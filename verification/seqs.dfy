/** Sequence operations the source performs through LINQ (`Where`,
    `SelectMany`, `Distinct`, `GroupBy`), each with the property the model
    relies on. */
module Seqs {

  /** `r` can be obtained from `xs` by deleting elements (order kept). */
  predicate IsSubsequence<T(==,!new)>(r: seq<T>, xs: seq<T>)
    decreases |xs|
  {
    if |r| == 0 then true
    else if |xs| == 0 then false
    else if r[0] == xs[0] then IsSubsequence(r[1..], xs[1..])
    else IsSubsequence(r, xs[1..])
  }

  predicate NoDuplicates<T(==,!new)>(xs: seq<T>) {
    forall i, j :: 0 <= i < j < |xs| ==> xs[i] != xs[j]
  }

  /** `Where(p)`: the elements satisfying `p`, in order. */
  function Filter<T(==,!new)>(xs: seq<T>, p: T -> bool): (r: seq<T>)
    ensures |r| <= |xs|
    ensures forall i :: 0 <= i < |r| ==> p(r[i])
    ensures forall x :: x in r <==> x in xs && p(x)
    ensures IsSubsequence(r, xs)
  {
    if |xs| == 0 then []
    else if p(xs[0]) then [xs[0]] + Filter(xs[1..], p)
    else Filter(xs[1..], p)
  }

  /** The filter keeps every wanted element as often as it occurs. */
  lemma {:induction false} FilterCounts<T(!new)>(xs: seq<T>, p: T -> bool)
    ensures forall x :: multiset(Filter(xs, p))[x] == if p(x) then multiset(xs)[x] else 0
  {
    if |xs| > 0 {
      assert xs == [xs[0]] + xs[1..];
      FilterCounts(xs[1..], p);
    }
  }

  /** `f` increases strictly along `xs`. */
  predicate Increasing<T>(xs: seq<T>, f: T -> int) {
    forall i, j :: 0 <= i < j < |xs| ==> f(xs[i]) < f(xs[j])
  }

  /** Filtering keeps an order: a measure increasing along `xs` increases
      along what the filter keeps. */
  lemma {:induction false} FilterKeepsOrder<T(!new)>(xs: seq<T>, p: T -> bool, f: T -> int)
    requires Increasing(xs, f)
    ensures Increasing(Filter(xs, p), f)
  {
    if |xs| > 0 {
      var tail := xs[1..];
      FilterKeepsOrder(tail, p, f);
      var rest := Filter(tail, p);
      if p(xs[0]) {
        var r := [xs[0]] + rest;
        forall j | 0 < j < |r|
          ensures f(r[0]) < f(r[j])
        {
          assert rest[j - 1] in tail;
          var k :| 0 <= k < |tail| && tail[k] == rest[j - 1];
          assert xs[k + 1] == r[j];
        }
        assert Increasing(r, f);
      }
    }
  }

  lemma {:induction false} FilterAppend<T(!new)>(a: seq<T>, b: seq<T>, p: T -> bool)
    ensures Filter(a + b, p) == Filter(a, p) + Filter(b, p)
  {
    if |a| == 0 {
      assert a + b == b;
    } else {
      assert (a + b)[1..] == a[1..] + b;
      FilterAppend(a[1..], b, p);
    }
  }

  /** Filtering keeps keys pairwise distinct. */
  lemma {:induction false} FilterDistinctKeys<T(!new), K(!new)>(xs: seq<T>, p: T -> bool, key: T -> K)
    requires forall i, j :: 0 <= i < j < |xs| ==> key(xs[i]) != key(xs[j])
    ensures forall i, j :: 0 <= i < j < |Filter(xs, p)| ==> key(Filter(xs, p)[i]) != key(Filter(xs, p)[j])
  {
    if |xs| > 0 {
      var tail := xs[1..];
      assert forall i, j :: 0 <= i < j < |tail| ==> key(tail[i]) != key(tail[j]) by {
        forall i, j | 0 <= i < j < |tail|
          ensures key(tail[i]) != key(tail[j])
        {
          assert tail[i] == xs[i + 1] && tail[j] == xs[j + 1];
        }
      }
      FilterDistinctKeys(tail, p, key);
      var rest := Filter(tail, p);
      var r := Filter(xs, p);
      if p(xs[0]) {
        assert r == [xs[0]] + rest;
        forall i, j | 0 <= i < j < |r|
          ensures key(r[i]) != key(r[j])
        {
          assert rest[j - 1] in tail;
          var k :| 0 <= k < |tail| && tail[k] == rest[j - 1];
          assert xs[k + 1] == r[j];
          if i > 0 {
            assert r[i] == rest[i - 1];
          }
        }
      } else {
        assert r == rest;
      }
    }
  }

  /** A filter that keeps everything returns its input. */
  lemma {:induction false} FilterAll<T(!new)>(xs: seq<T>, p: T -> bool)
    requires forall i :: 0 <= i < |xs| ==> p(xs[i])
    ensures Filter(xs, p) == xs
  {
    if |xs| > 0 {
      FilterAll(xs[1..], p);
    }
  }

  /** `Select(f)`. */
  function Map<T, U>(xs: seq<T>, f: T -> U): (r: seq<U>)
    ensures |r| == |xs|
    ensures forall i :: 0 <= i < |xs| ==> r[i] == f(xs[i])
  {
    seq(|xs|, i requires 0 <= i < |xs| => f(xs[i]))
  }

  /** `SelectMany`: the inner sequences concatenated in order. */
  lemma MapCons<T, U>(x: T, xs: seq<T>, f: T -> U)
    ensures Map([x] + xs, f) == [f(x)] + Map(xs, f)
  {
    assert Map([x] + xs, f)[0] == f(x);
    assert forall i :: 1 <= i < |xs| + 1 ==> Map([x] + xs, f)[i] == Map(xs, f)[i - 1];
  }

  function Flatten<T>(xss: seq<seq<T>>): (r: seq<T>)
    ensures |r| == SumLengths(xss)
  {
    if |xss| == 0 then [] else xss[0] + Flatten(xss[1..])
  }

  function SumLengths<T>(xss: seq<seq<T>>): nat {
    if |xss| == 0 then 0 else |xss[0]| + SumLengths(xss[1..])
  }

  lemma {:induction false} FlattenAppend<T>(a: seq<seq<T>>, b: seq<seq<T>>)
    ensures Flatten(a + b) == Flatten(a) + Flatten(b)
  {
    if |a| == 0 {
      assert a + b == b;
    } else {
      assert (a + b)[1..] == a[1..] + b;
      FlattenAppend(a[1..], b);
    }
  }

  /** Every element of a flattened sequence comes from one of the inner
      sequences, and every inner element appears. */
  lemma {:induction false} FlattenMembership<T>(xss: seq<seq<T>>, x: T)
    ensures x in Flatten(xss) <==> exists i :: 0 <= i < |xss| && x in xss[i]
  {
    if |xss| > 0 {
      FlattenMembership(xss[1..], x);
      if x in Flatten(xss[1..]) {
        var i :| 0 <= i < |xss[1..]| && x in xss[1..][i];
        assert x in xss[i + 1];
      }
      if exists i :: 0 <= i < |xss| && x in xss[i] {
        var i :| 0 <= i < |xss| && x in xss[i];
        if i > 0 {
          assert x in xss[1..][i - 1];
        }
      }
    }
  }

  lemma FlattenMembershipAll<T>(xss: seq<seq<T>>)
    ensures forall x :: x in Flatten(xss) <==> exists i :: 0 <= i < |xss| && x in xss[i]
  {
    forall x
      ensures x in Flatten(xss) <==> exists i :: 0 <= i < |xss| && x in xss[i]
    {
      FlattenMembership(xss, x);
    }
  }

  /** `Distinct()` with the elements in `seen` already taken. */
  function DistinctFrom<T(==,!new)>(xs: seq<T>, seen: set<T>): (r: seq<T>)
    ensures NoDuplicates(r)
    ensures forall x :: x in r <==> x in xs && x !in seen
    ensures IsSubsequence(r, xs)
  {
    if |xs| == 0 then []
    else if xs[0] in seen then DistinctFrom(xs[1..], seen)
    else [xs[0]] + DistinctFrom(xs[1..], seen + {xs[0]})
  }

  /** `Distinct()`: each element once, at its first occurrence. */
  function Distinct<T(==,!new)>(xs: seq<T>): (r: seq<T>)
    ensures NoDuplicates(r)
    ensures forall x :: x in r <==> x in xs
    ensures IsSubsequence(r, xs)
  {
    DistinctFrom(xs, {})
  }

  /** An element listed twice is kept once. */
  lemma DistinctTwice<T(!new)>(x: T)
    ensures Distinct([x, x]) == [x]
  {
    assert [x, x][1..] == [x] && [x][1..] == [];
    assert {} + {x} == {x};
    assert DistinctFrom([x], {x}) == [];
    assert DistinctFrom([x, x], {}) == [x];
  }

  /** Index of the first occurrence of `x`. */
  function FirstIndex<T(==,!new)>(xs: seq<T>, x: T): (k: nat)
    requires x in xs
    ensures k < |xs| && xs[k] == x
    ensures forall m :: 0 <= m < k ==> xs[m] != x
  {
    if xs[0] == x then 0 else 1 + FirstIndex(xs[1..], x)
  }

  /** Index of the first element whose key is `k`; `|xs|` when there is
      none. */
  function FirstKeyIndex<T, K(==)>(xs: seq<T>, key: T -> K, k: K): (n: nat)
    ensures n <= |xs|
    ensures n < |xs| ==> key(xs[n]) == k
    ensures forall m :: 0 <= m < n ==> key(xs[m]) != k
  {
    if |xs| == 0 then 0
    else if key(xs[0]) == k then 0
    else 1 + FirstKeyIndex(xs[1..], key, k)
  }

  /** Two sequences whose keys agree position by position have their keys
      first at the same places. */
  lemma FirstKeyIndexAgree<T, U, K(!new)>(xs: seq<T>, kx: T -> K, ys: seq<U>, ky: U -> K, k: K)
    requires |xs| == |ys| && forall i :: 0 <= i < |xs| ==> kx(xs[i]) == ky(ys[i])
    ensures FirstKeyIndex(xs, kx, k) == FirstKeyIndex(ys, ky, k)
  {
  }

  /** An element standing where its key first occurs stands there at its
      first occurrence too. */
  lemma FirstIndexAtFirstKey<T(!new), K(!new)>(xs: seq<T>, key: T -> K, x: T)
    requires FirstKeyIndex(xs, key, key(x)) < |xs| && xs[FirstKeyIndex(xs, key, key(x))] == x
    ensures x in xs && FirstIndex(xs, x) == FirstKeyIndex(xs, key, key(x))
  {
    var n := FirstKeyIndex(xs, key, key(x));
    assert xs[n] in xs;
    var f := FirstIndex(xs, x);
    assert key(xs[f]) == key(x);
  }

  /** The elements of `r` appear in `r` in the order of their first
      occurrence in `xs`. */
  predicate InFirstOccurrenceOrder<T(==,!new)>(xs: seq<T>, r: seq<T>)
    requires forall y :: y in r ==> y in xs
  {
    forall i, j :: 0 <= i < j < |r| ==> FirstIndex(xs, r[i]) < FirstIndex(xs, r[j])
  }

  lemma {:induction false} DistinctFromOrder<T(!new)>(xs: seq<T>, seen: set<T>)
    ensures InFirstOccurrenceOrder(xs, DistinctFrom(xs, seen))
  {
    if |xs| > 0 {
      var r := DistinctFrom(xs, seen);
      var tail := xs[1..];
      if xs[0] in seen {
        DistinctFromOrder(tail, seen);
        assert r == DistinctFrom(tail, seen);
        forall i, j | 0 <= i < j < |r|
          ensures FirstIndex(xs, r[i]) < FirstIndex(xs, r[j])
        {
          assert r[i] in r && r[j] in r;
          assert FirstIndex(tail, r[i]) < FirstIndex(tail, r[j]);
        }
      } else {
        var rest := DistinctFrom(tail, seen + {xs[0]});
        DistinctFromOrder(tail, seen + {xs[0]});
        assert r == [xs[0]] + rest;
        forall i, j | 0 <= i < j < |r|
          ensures FirstIndex(xs, r[i]) < FirstIndex(xs, r[j])
        {
          assert r[j] == rest[j - 1] && rest[j - 1] in rest;
          if i > 0 {
            assert r[i] == rest[i - 1] && rest[i - 1] in rest;
            assert FirstIndex(tail, rest[i - 1]) < FirstIndex(tail, rest[j - 1]);
          }
        }
      }
    }
  }

  /** `Distinct()` lists the elements in the order of their first
      occurrence. */
  lemma DistinctOrder<T(!new)>(xs: seq<T>)
    ensures InFirstOccurrenceOrder(xs, Distinct(xs))
  {
    assert Distinct(xs) == DistinctFrom(xs, {});
    DistinctFromOrder(xs, {});
  }

  /** The elements whose key is `k`, in order. */
  function FilterKey<T(==,!new), K(==,!new)>(xs: seq<T>, key: T -> K, k: K): (r: seq<T>)
    ensures forall i :: 0 <= i < |r| ==> key(r[i]) == k
    ensures forall x :: x in r <==> x in xs && key(x) == k
    ensures IsSubsequence(r, xs)
  {
    if |xs| == 0 then []
    else if key(xs[0]) == k then [xs[0]] + FilterKey(xs[1..], key, k)
    else FilterKey(xs[1..], key, k)
  }

  /** The elements whose key lies in `ks`. */
  function FilterKeys<T(==,!new), K(==,!new)>(xs: seq<T>, key: T -> K, ks: set<K>): seq<T> {
    if |xs| == 0 then []
    else if key(xs[0]) in ks then [xs[0]] + FilterKeys(xs[1..], key, ks)
    else FilterKeys(xs[1..], key, ks)
  }

  /** The distinct keys of `xs`, in first-occurrence order. */
  function GroupKeys<T, K(==,!new)>(xs: seq<T>, key: T -> K): seq<K> {
    Distinct(Map(xs, key))
  }

  /** One group per key of `ks`: the elements having that key. */
  function GroupsFor<T(==,!new), K(==,!new)>(xs: seq<T>, key: T -> K, ks: seq<K>): seq<seq<T>> {
    seq(|ks|, i requires 0 <= i < |ks| => FilterKey(xs, key, ks[i]))
  }

  /** `GroupBy(key)`: one group per distinct key, groups ordered by the
      first occurrence of their key, members in input order. */
  function GroupBy<T(==,!new), K(==,!new)>(xs: seq<T>, key: T -> K): (groups: seq<seq<T>>)
    ensures forall i :: 0 <= i < |groups| ==> |groups[i]| > 0
    ensures forall i, j :: 0 <= i < |groups| && 0 <= j < |groups[i]| ==>
      key(groups[i][j]) == key(groups[i][0])
    ensures forall i :: 0 <= i < |groups| ==> IsSubsequence(groups[i], xs)
    ensures forall i, j :: 0 <= i < j < |groups| ==> key(groups[i][0]) != key(groups[j][0])
    ensures forall x :: x in xs ==> exists i :: 0 <= i < |groups| && x in groups[i]
    ensures forall i, x :: 0 <= i < |groups| && x in xs && key(x) == key(groups[i][0]) ==> x in groups[i]
    ensures |xs| > 0 ==> |groups| > 0 && groups[0][0] == xs[0]
  {
    GroupsForFacts(xs, key);
    GroupsFor(xs, key, GroupKeys(xs, key))
  }

  lemma GroupsForFacts<T(!new), K(!new)>(xs: seq<T>, key: T -> K)
    ensures var ks := GroupKeys(xs, key);
      var groups := GroupsFor(xs, key, ks);
      && (forall i :: 0 <= i < |groups| ==> |groups[i]| > 0 && key(groups[i][0]) == ks[i])
      && (forall x :: x in xs ==> exists i :: 0 <= i < |groups| && x in groups[i])
      && (|xs| > 0 ==> |groups| > 0 && groups[0][0] == xs[0])
  {
    var ks := GroupKeys(xs, key);
    var groups := GroupsFor(xs, key, ks);
    forall i | 0 <= i < |groups|
      ensures |groups[i]| > 0 && key(groups[i][0]) == ks[i]
    {
      assert ks[i] in Map(xs, key);
      var j :| 0 <= j < |xs| && Map(xs, key)[j] == ks[i];
      assert xs[j] in groups[i];
    }
    forall x | x in xs
      ensures exists i :: 0 <= i < |groups| && x in groups[i]
    {
      var j :| 0 <= j < |xs| && xs[j] == x;
      assert key(x) == Map(xs, key)[j];
      assert key(x) in ks;
      var i :| 0 <= i < |ks| && ks[i] == key(x);
      assert x in groups[i];
    }
    if |xs| > 0 {
      assert Map(xs, key)[0] == key(xs[0]);
      assert ks == DistinctFrom(Map(xs, key), {});
      assert ks[0] == key(xs[0]);
      assert groups[0] == FilterKey(xs, key, key(xs[0]));
    }
  }

  /** Splitting a key set into one key and the rest splits the count. */
  lemma {:induction false} FilterKeysSplit<T(!new), K(!new)>(xs: seq<T>, key: T -> K, k: K, ks: set<K>)
    requires k !in ks
    ensures |FilterKeys(xs, key, {k} + ks)| == |FilterKey(xs, key, k)| + |FilterKeys(xs, key, ks)|
  {
    if |xs| > 0 {
      FilterKeysSplit(xs[1..], key, k, ks);
    }
  }

  lemma {:induction false} FilterKeysCover<T(!new), K(!new)>(xs: seq<T>, key: T -> K, ks: set<K>)
    requires forall i :: 0 <= i < |xs| ==> key(xs[i]) in ks
    ensures FilterKeys(xs, key, ks) == xs
  {
    if |xs| > 0 {
      FilterKeysCover(xs[1..], key, ks);
    }
  }

  lemma {:induction false} GroupsForSum<T(!new), K(!new)>(xs: seq<T>, key: T -> K, ks: seq<K>)
    requires NoDuplicates(ks)
    ensures SumLengths(GroupsFor(xs, key, ks)) == |FilterKeys(xs, key, set k | k in ks)|
  {
    var s := set k | k in ks;
    if |ks| == 0 {
      FilterKeysEmpty(xs, key, s);
    } else {
      var rest := ks[1..];
      var g := GroupsFor(xs, key, ks);
      assert g[1..] == GroupsFor(xs, key, rest);
      GroupsForSum(xs, key, rest);
      var s' := set k | k in rest;
      assert ks[0] !in s';
      assert s == {ks[0]} + s';
      FilterKeysSplit(xs, key, ks[0], s');
    }
  }

  lemma {:induction false} FilterKeysEmpty<T(!new), K(!new)>(xs: seq<T>, key: T -> K, ks: set<K>)
    requires ks == {}
    ensures FilterKeys(xs, key, ks) == []
  {
    if |xs| > 0 {
      FilterKeysEmpty(xs[1..], key, ks);
    }
  }

  /** Grouping loses and duplicates nothing: the group sizes add up to the
      input length. */
  lemma GroupBySizes<T(!new), K(!new)>(xs: seq<T>, key: T -> K)
    ensures SumLengths(GroupBy(xs, key)) == |xs|
  {
    var ks := GroupKeys(xs, key);
    GroupsForSum(xs, key, ks);
    var s := set k | k in ks;
    forall i | 0 <= i < |xs|
      ensures key(xs[i]) in s
    {
      assert Map(xs, key)[i] == key(xs[i]);
    }
    FilterKeysCover(xs, key, s);
  }

  /** Each group is exactly the elements sharing its key, in input order. */
  lemma GroupByMembers<T(!new), K(!new)>(xs: seq<T>, key: T -> K, i: nat)
    requires i < |GroupBy(xs, key)|
    ensures GroupBy(xs, key)[i] == FilterKey(xs, key, key(GroupBy(xs, key)[i][0]))
  {
    var ks := GroupKeys(xs, key);
    var g := GroupBy(xs, key);
    assert g[i] == FilterKey(xs, key, ks[i]);
  }

  /** The first element having key `k` heads its group. */
  lemma {:induction false} FilterKeyFirst<T(!new), K(!new)>(xs: seq<T>, key: T -> K, k: K)
    requires |FilterKey(xs, key, k)| > 0
    ensures exists i :: 0 <= i < |xs| && xs[i] == FilterKey(xs, key, k)[0] && (forall m :: 0 <= m < i ==> key(xs[m]) != k)
  {
    if key(xs[0]) != k {
      FilterKeyFirst(xs[1..], key, k);
      var i :| 0 <= i < |xs[1..]| && xs[1..][i] == FilterKey(xs[1..], key, k)[0] &&
        forall m :: 0 <= m < i ==> key(xs[1..][m]) != k;
      assert xs[i + 1] == FilterKey(xs, key, k)[0];
      forall m | 0 <= m < i + 1
        ensures key(xs[m]) != k
      {
        if m > 0 {
          assert xs[m] == xs[1..][m - 1];
        }
      }
    }
  }

  /** Groups come in the order in which their keys first occur. */
  lemma GroupByOrder<T(!new), K(!new)>(xs: seq<T>, key: T -> K, i: nat, j: nat)
    requires i < j < |GroupBy(xs, key)|
    ensures key(GroupBy(xs, key)[i][0]) in Map(xs, key)
    ensures key(GroupBy(xs, key)[j][0]) in Map(xs, key)
    ensures FirstIndex(Map(xs, key), key(GroupBy(xs, key)[i][0])) < FirstIndex(Map(xs, key), key(GroupBy(xs, key)[j][0]))
  {
    GroupsForFacts(xs, key);
    DistinctOrder(Map(xs, key));
  }

  /** The first element with key `k` stands where the key first occurs. */
  lemma {:induction false} FilterKeyHeadAt<T(!new), K(!new)>(xs: seq<T>, key: T -> K, k: K)
    requires |FilterKey(xs, key, k)| > 0
    ensures FirstKeyIndex(xs, key, k) < |xs| && xs[FirstKeyIndex(xs, key, k)] == FilterKey(xs, key, k)[0]
  {
    if key(xs[0]) != k {
      FilterKeyHeadAt(xs[1..], key, k);
    }
  }

  /** The heads of the groups come in the order in which their keys first
      occur. */
  lemma GroupByHeadOrder<T(!new), K(!new)>(xs: seq<T>, key: T -> K, i: nat, j: nat)
    requires i < j < |GroupBy(xs, key)|
    ensures FirstKeyIndex(xs, key, key(GroupBy(xs, key)[i][0])) < FirstKeyIndex(xs, key, key(GroupBy(xs, key)[j][0]))
  {
    var g := GroupBy(xs, key);
    var a := g[i][0];
    var b := g[j][0];
    GroupByMembers(xs, key, i);
    GroupByMembers(xs, key, j);
    FilterKeyHeadAt(xs, key, key(a));
    FilterKeyHeadAt(xs, key, key(b));
    FirstIndexAtFirstKey(xs, key, a);
    FirstIndexAtFirstKey(xs, key, b);
    HeadIndexOrder(xs, key, i, j, a, b);
  }

  /** Some element of `r` has key `k`. */
  predicate HasKey<T, K(==)>(r: seq<T>, key: T -> K, k: K) {
    exists i :: 0 <= i < |r| && key(r[i]) == k
  }

  /** `Distinct()` under the equality `key(x) == key(y)`: the first element
      of each key, in the order in which the keys first occur. */
  function DistinctBy<T(==,!new), K(==,!new)>(xs: seq<T>, key: T -> K): (r: seq<T>)
    ensures forall i, j :: 0 <= i < j < |r| ==> key(r[i]) != key(r[j])
    ensures forall i :: 0 <= i < |r| ==> r[i] in xs && r[i] == FilterKey(xs, key, key(r[i]))[0]
    ensures forall x :: x in xs ==> HasKey(r, key, key(x))
    ensures forall i, j :: 0 <= i < j < |r| ==> FirstIndex(xs, r[i]) < FirstIndex(xs, r[j])
    ensures forall i :: 0 <= i < |r| ==>
      FirstKeyIndex(xs, key, key(r[i])) < |xs| && xs[FirstKeyIndex(xs, key, key(r[i]))] == r[i]
    ensures forall i, j :: 0 <= i < j < |r| ==> FirstKeyIndex(xs, key, key(r[i])) < FirstKeyIndex(xs, key, key(r[j]))
  {
    var r := Heads(GroupBy(xs, key));
    DistinctByHeads(xs, key, r);
    r
  }

  /** The first element of each group. */
  function Heads<T>(groups: seq<seq<T>>): (r: seq<T>)
    requires forall i :: 0 <= i < |groups| ==> |groups[i]| > 0
    ensures |r| == |groups| && forall i :: 0 <= i < |r| ==> r[i] == groups[i][0]
  {
    seq(|groups|, i requires 0 <= i < |groups| => groups[i][0])
  }

  lemma DistinctByHeads<T(!new), K(!new)>(xs: seq<T>, key: T -> K, r: seq<T>)
    requires |r| == |GroupBy(xs, key)|
    requires forall i :: 0 <= i < |r| ==> r[i] == GroupBy(xs, key)[i][0]
    ensures forall i, j :: 0 <= i < j < |r| ==> key(r[i]) != key(r[j])
    ensures forall i :: 0 <= i < |r| ==> r[i] in xs && r[i] == FilterKey(xs, key, key(r[i]))[0]
    ensures forall x :: x in xs ==> HasKey(r, key, key(x))
    ensures forall i, j :: 0 <= i < j < |r| ==> FirstIndex(xs, r[i]) < FirstIndex(xs, r[j])
    ensures forall i :: 0 <= i < |r| ==>
      FirstKeyIndex(xs, key, key(r[i])) < |xs| && xs[FirstKeyIndex(xs, key, key(r[i]))] == r[i]
    ensures forall i, j :: 0 <= i < j < |r| ==> FirstKeyIndex(xs, key, key(r[i])) < FirstKeyIndex(xs, key, key(r[j]))
  {
    HeadsAreFirst(xs, key, r);
    HeadsInKeyOrder(xs, key, r);
    HeadsCoverKeys(xs, key, r);
    HeadsInOrder(xs, key, r);
  }

  /** Each head is the first element of its key. */
  lemma HeadsAreFirst<T(!new), K(!new)>(xs: seq<T>, key: T -> K, r: seq<T>)
    requires |r| == |GroupBy(xs, key)|
    requires forall i :: 0 <= i < |r| ==> r[i] == GroupBy(xs, key)[i][0]
    ensures forall i :: 0 <= i < |r| ==> r[i] in xs && r[i] == FilterKey(xs, key, key(r[i]))[0]
    ensures forall i :: 0 <= i < |r| ==>
      FirstKeyIndex(xs, key, key(r[i])) < |xs| && xs[FirstKeyIndex(xs, key, key(r[i]))] == r[i]
  {
    forall i | 0 <= i < |r|
      ensures r[i] in xs && r[i] == FilterKey(xs, key, key(r[i]))[0]
      ensures FirstKeyIndex(xs, key, key(r[i])) < |xs| && xs[FirstKeyIndex(xs, key, key(r[i]))] == r[i]
    {
      GroupByMembers(xs, key, i);
      FilterKeyHeadAt(xs, key, key(r[i]));
    }
  }

  /** The heads come in the order their keys first occur, so their keys
      differ. */
  lemma HeadsInKeyOrder<T(!new), K(!new)>(xs: seq<T>, key: T -> K, r: seq<T>)
    requires |r| == |GroupBy(xs, key)|
    requires forall i :: 0 <= i < |r| ==> r[i] == GroupBy(xs, key)[i][0]
    ensures forall i, j :: 0 <= i < j < |r| ==> FirstKeyIndex(xs, key, key(r[i])) < FirstKeyIndex(xs, key, key(r[j]))
    ensures forall i, j :: 0 <= i < j < |r| ==> key(r[i]) != key(r[j])
  {
    forall i, j | 0 <= i < j < |r|
      ensures FirstKeyIndex(xs, key, key(r[i])) < FirstKeyIndex(xs, key, key(r[j]))
    {
      GroupByHeadOrder(xs, key, i, j);
    }
  }

  /** Every key of the input has a head. */
  lemma HeadsCoverKeys<T(!new), K(!new)>(xs: seq<T>, key: T -> K, r: seq<T>)
    requires |r| == |GroupBy(xs, key)|
    requires forall i :: 0 <= i < |r| ==> r[i] == GroupBy(xs, key)[i][0]
    ensures forall x :: x in xs ==> HasKey(r, key, key(x))
  {
    var groups := GroupBy(xs, key);
    forall x | x in xs
      ensures HasKey(r, key, key(x))
    {
      var i :| 0 <= i < |groups| && x in groups[i];
      var j :| 0 <= j < |groups[i]| && groups[i][j] == x;
      assert key(r[i]) == key(x);
    }
  }

  /** The heads come in the order they first occur. */
  lemma HeadsInOrder<T(!new), K(!new)>(xs: seq<T>, key: T -> K, r: seq<T>)
    requires |r| == |GroupBy(xs, key)|
    requires forall i :: 0 <= i < |r| ==> r[i] == GroupBy(xs, key)[i][0]
    ensures forall i, j :: 0 <= i < j < |r| ==> FirstIndex(xs, r[i]) < FirstIndex(xs, r[j])
  {
    forall i, j | 0 <= i < j < |r|
      ensures FirstIndex(xs, r[i]) < FirstIndex(xs, r[j])
    {
      HeadIndexOrder(xs, key, i, j, r[i], r[j]);
    }
  }

  /** The first element of a key sits where that key first occurs. */
  lemma {:induction false} FirstIndexOfFirstWithKey<T(!new), K(!new)>(xs: seq<T>, key: T -> K, x: T)
    requires x in xs && x == FilterKey(xs, key, key(x))[0]
    ensures key(x) in Map(xs, key)
    ensures FirstIndex(xs, x) == FirstIndex(Map(xs, key), key(x))
  {
    assert key(xs[0]) == Map(xs, key)[0];
    if xs[0] != x {
      assert key(xs[0]) != key(x);
      assert Map(xs, key)[1..] == Map(xs[1..], key);
      FirstIndexOfFirstWithKey(xs[1..], key, x);
    }
  }

  lemma HeadIndexOrder<T(!new), K(!new)>(xs: seq<T>, key: T -> K, i: nat, j: nat, a: T, b: T)
    requires i < j < |GroupBy(xs, key)|
    requires a == GroupBy(xs, key)[i][0] && b == GroupBy(xs, key)[j][0]
    requires a in xs && a == FilterKey(xs, key, key(a))[0]
    requires b in xs && b == FilterKey(xs, key, key(b))[0]
    ensures FirstIndex(xs, a) < FirstIndex(xs, b)
  {
    GroupByOrder(xs, key, i, j);
    FirstIndexOfFirstWithKey(xs, key, a);
    FirstIndexOfFirstWithKey(xs, key, b);
  }
}
