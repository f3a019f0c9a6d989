/** Generic list operations with the facts the rest of the model relies on:
    Array.prototype.filter, a fold that sums, and `[...new Set(xs)]`. */
module Seqs {

  import opened Wrappers

  /** Array.prototype.filter: keeps, in their original order, the elements
      satisfying `p`. */
  function Filter<T(==,!new)>(s: seq<T>, p: T -> bool): (r: seq<T>)
    ensures |r| <= |s|
    ensures forall i :: 0 <= i < |r| ==> p(r[i])
    ensures forall x :: x in r <==> x in s && p(x)
  {
    if |s| == 0 then []
    else
      assert s == [s[0]] + s[1..];
      if p(s[0]) then [s[0]] + Filter(s[1..], p)
      else Filter(s[1..], p)
  }

  /** Filtering keeps every copy of a kept element and no copy of a dropped
      one. */
  lemma {:induction false} FilterMultiset<T(!new)>(s: seq<T>, p: T -> bool)
    ensures forall x :: multiset(Filter(s, p))[x] == if p(x) then multiset(s)[x] else 0
  {
    if |s| > 0 {
      assert s == [s[0]] + s[1..];
      FilterMultiset(s[1..], p);
    }
  }

  /** Filtering commutes with concatenation: the kept elements of a list keep
      their relative order. */
  lemma {:induction false} FilterConcat<T(!new)>(a: seq<T>, b: seq<T>, p: T -> bool)
    ensures Filter(a + b, p) == Filter(a, p) + Filter(b, p)
  {
    if |a| == 0 {
      assert a + b == b;
    } else {
      assert (a + b)[1..] == a[1..] + b;
      FilterConcat(a[1..], b, p);
    }
  }

  /** A predicate every element satisfies keeps the whole list, in order. */
  lemma {:induction false} FilterAll<T(!new)>(s: seq<T>, p: T -> bool)
    requires forall i :: 0 <= i < |s| ==> p(s[i])
    ensures Filter(s, p) == s
  {
    if |s| > 0 {
      FilterAll(s[1..], p);
    }
  }

  /** A filter that only ever narrows `p` keeps no more than `p` does. */
  lemma {:induction false} FilterMonotone<T(!new)>(s: seq<T>, p: T -> bool, q: T -> bool)
    requires forall x :: q(x) ==> p(x)
    ensures |Filter(s, q)| <= |Filter(s, p)|
  {
    if |s| > 0 {
      FilterMonotone(s[1..], p, q);
    }
  }

  /** Array.prototype.find: the first element satisfying `p`, if any. */
  function Find<T>(s: seq<T>, p: T -> bool): (r: Option<T>)
    ensures r.None? <==> forall i :: 0 <= i < |s| ==> !p(s[i])
    ensures r.Some? ==> r.value in s && p(r.value)
    ensures r.Some? ==>
      (exists i :: 0 <= i < |s| && s[i] == r.value && (forall j :: 0 <= j < i ==> !p(s[j])))
  {
    if |s| == 0 then None
    else if p(s[0]) then Some(s[0])
    else
      var r := Find(s[1..], p);
      assert r.Some? ==> exists i :: 1 <= i < |s| && s[i] == r.value && (forall j :: 0 <= j < i ==> !p(s[j])) by {
        if r.Some? {
          var i :| 0 <= i < |s| - 1 && s[1..][i] == r.value && (forall j :: 0 <= j < i ==> !p(s[1..][j]));
          assert forall j :: 1 <= j < i + 1 ==> !p(s[j]) by {
            forall j | 1 <= j < i + 1 ensures !p(s[j]) {
              assert s[j] == s[1..][j - 1];
            }
          }
        }
      }
      r
  }

  /** Sorted by ascending `key`. */
  predicate SortedBy<T>(s: seq<T>, key: T -> int)
  {
    forall i, j :: 0 <= i < j < |s| ==> key(s[i]) <= key(s[j])
  }

  /** Stable insertion: `x` goes in front of the first element whose key is
      no smaller. */
  function InsertBy<T(==,!new)>(x: T, s: seq<T>, key: T -> int): (r: seq<T>)
    requires SortedBy(s, key)
    ensures SortedBy(r, key)
    ensures |r| == |s| + 1
    ensures forall y :: y in r <==> y == x || y in s
  {
    if |s| == 0 then [x]
    else if key(x) <= key(s[0]) then [x] + s
    else
      var t := InsertBy(x, s[1..], key);
      assert s == [s[0]] + s[1..];
      assert forall j :: 0 <= j < |t| ==> key(s[0]) <= key(t[j]) by {
        forall j | 0 <= j < |t| ensures key(s[0]) <= key(t[j]) {
          assert t[j] in t;
        }
      }
      [s[0]] + t
  }

  /** Insertion adds exactly one occurrence of `x`. */
  lemma {:induction false} InsertByPermutes<T(!new)>(x: T, s: seq<T>, key: T -> int)
    requires SortedBy(s, key)
    ensures multiset(InsertBy(x, s, key)) == multiset(s) + multiset{x}
  {
    if |s| > 0 && key(x) > key(s[0]) {
      InsertByPermutes(x, s[1..], key);
      assert s == [s[0]] + s[1..];
    }
  }

  /** Array.prototype.sort with the comparator `(a, b) => key(a) - key(b)`:
      a stable sort by ascending key. */
  function SortBy<T(==,!new)>(s: seq<T>, key: T -> int): (r: seq<T>)
    ensures SortedBy(r, key)
    ensures |r| == |s|
    ensures forall y :: y in r <==> y in s
  {
    if |s| == 0 then []
    else
      assert s == [s[0]] + s[1..];
      InsertBy(s[0], SortBy(s[1..], key), key)
  }

  /** The sort is a permutation: every element keeps its number of
      occurrences. */
  lemma {:induction false} SortByPermutes<T(!new)>(s: seq<T>, key: T -> int)
    ensures multiset(SortBy(s, key)) == multiset(s)
  {
    if |s| > 0 {
      SortByPermutes(s[1..], key);
      InsertByPermutes(s[0], SortBy(s[1..], key), key);
      assert s == [s[0]] + s[1..];
    }
  }

  /** The reference choice: the element of least key, the first such in list
      order when several tie. */
  function FirstMinimal<T>(s: seq<T>, key: T -> int): (r: T)
    requires |s| > 0
    ensures r in s
    ensures forall i :: 0 <= i < |s| ==> key(r) <= key(s[i])
    ensures exists i :: (0 <= i < |s| && s[i] == r
      && (forall j :: 0 <= j < i ==> key(s[j]) > key(r)))
  {
    if |s| == 1 then s[0]
    else
      var m := FirstMinimal(s[1..], key);
      if key(s[0]) <= key(m) then s[0]
      else
        assert exists i :: (1 <= i < |s| && s[i] == m
          && (forall j :: 0 <= j < i ==> key(s[j]) > key(m))) by {
          var i :| 0 <= i < |s| - 1 && s[1..][i] == m
            && (forall j :: 0 <= j < i ==> key(s[1..][j]) > key(m));
          assert forall j :: 1 <= j < i + 1 ==> key(s[j]) > key(m) by {
            forall j | 1 <= j < i + 1 ensures key(s[j]) > key(m) {
              assert s[j] == s[1..][j - 1];
            }
          }
        }
        m
  }

  /** A `filter` followed by a `map`, in one pass: the values `f` gives, in
      list order, for the elements it gives one for. */
  function Collect<T, U>(s: seq<T>, f: T -> Option<U>): seq<U>
  {
    if |s| == 0 then []
    else (if f(s[0]).Some? then [f(s[0]).value] else []) + Collect(s[1..], f)
  }

  /** Collecting from two lists one after the other is collecting from each. */
  lemma {:induction false} CollectConcat<T, U>(a: seq<T>, b: seq<T>, f: T -> Option<U>)
    ensures Collect(a + b, f) == Collect(a, f) + Collect(b, f)
  {
    if |a| == 0 {
      assert a + b == b;
    } else {
      assert (a + b)[0] == a[0];
      assert (a + b)[1..] == a[1..] + b;
      CollectConcat(a[1..], b, f);
    }
  }

  /** Every value `f` gives for an element is collected, and nothing else is. */
  lemma {:induction false} CollectHolds<T, U>(s: seq<T>, f: T -> Option<U>)
    ensures |Collect(s, f)| <= |s|
    ensures forall x :: x in s && f(x).Some? ==> f(x).value in Collect(s, f)
    ensures forall y :: y in Collect(s, f) ==> exists x :: x in s && f(x) == Some(y)
  {
    if |s| > 0 {
      CollectHolds(s[1..], f);
      assert forall x :: x in s[1..] ==> x in s;
      assert forall x :: x in s ==> x == s[0] || x in s[1..];
    }
  }

  /** Collecting from a non-empty list: the first element's value, if any,
      then the rest. */
  lemma CollectHead<T, U>(s: seq<T>, f: T -> Option<U>)
    requires |s| > 0
    ensures Collect([s[0]], f) == if f(s[0]).Some? then [f(s[0]).value] else []
    ensures Collect(s, f) == Collect([s[0]], f) + Collect(s[1..], f)
  {
    assert [s[0]][1..] == [];
  }

  /** The first element whose value is `y`: the elements before it give no `y`. */
  lemma CollectFirst<T, U>(s: seq<T>, f: T -> Option<U>, y: U) returns (i0: nat)
    requires y in Collect(s, f)
    ensures i0 < |s| && f(s[i0]) == Some(y)
    ensures y !in Collect(s[..i0], f)
    ensures Collect(s, f) == Collect(s[..i0], f) + [y] + Collect(s[i0 + 1..], f)
  {
    CollectHolds(s, f);
    i0 := 0;
    while f(s[i0]) != Some(y)
      invariant i0 < |s|
      invariant forall k :: 0 <= k < i0 ==> f(s[k]) != Some(y)
      invariant exists k :: i0 <= k < |s| && f(s[k]) == Some(y)
      decreases |s| - i0
    {
      i0 := i0 + 1;
    }
    var pre, rest := s[..i0], s[i0..];
    CollectHolds(pre, f);
    assert forall x :: x in pre ==> f(x) != Some(y);
    assert s == pre + rest;
    CollectConcat(pre, rest, f);
    CollectHead(rest, f);
    assert rest[1..] == s[i0 + 1..];
  }

  /** When the first element of least key is `x` and `x` first occurs after
      `pre`, every element of `pre` has a strictly greater key. */
  lemma FirstMinimalBeatsEarlier<T>(pre: seq<T>, x: T, post: seq<T>, key: T -> int)
    requires x !in pre
    requires FirstMinimal(pre + [x] + post, key) == x
    ensures forall y :: y in pre ==> key(y) > key(x)
  {
    var s := pre + [x] + post;
    var k :| 0 <= k < |s| && s[k] == x && forall j :: 0 <= j < k ==> key(s[j]) > key(x);
    assert forall j :: 0 <= j < |pre| ==> s[j] == pre[j];
    assert k >= |pre|;
    forall y | y in pre
      ensures key(y) > key(x)
    {
      var j :| 0 <= j < |pre| && pre[j] == y;
      assert s[j] == y;
    }
  }

  /** The head of the stable sort is the first element of least key. */
  lemma {:induction false} SortHeadIsFirstMinimal<T(!new)>(s: seq<T>, key: T -> int)
    requires |s| > 0
    ensures SortBy(s, key)[0] == FirstMinimal(s, key)
  {
    if |s| > 1 {
      SortHeadIsFirstMinimal(s[1..], key);
    }
  }

  /** Array.prototype.reduce((sum, x) => sum + f(x), 0). */
  function Sum<T>(s: seq<T>, f: T -> real): real
  {
    if |s| == 0 then 0.0 else f(s[0]) + Sum(s[1..], f)
  }

  /** The sum over a concatenation is the sum of the sums. */
  lemma {:induction false} SumConcat<T>(a: seq<T>, b: seq<T>, f: T -> real)
    ensures Sum(a + b, f) == Sum(a, f) + Sum(b, f)
  {
    if |a| == 0 {
      assert a + b == b;
    } else {
      assert (a + b)[1..] == a[1..] + b;
      SumConcat(a[1..], b, f);
    }
  }

  /** A sum of non-negative terms is non-negative. */
  lemma {:induction false} SumNonNegative<T>(s: seq<T>, f: T -> real)
    requires forall i :: 0 <= i < |s| ==> f(s[i]) >= 0.0
    ensures Sum(s, f) >= 0.0
  {
    if |s| > 0 {
      SumNonNegative(s[1..], f);
    }
  }

  /** Multiplying every term by `k` multiplies the sum by `k`. */
  lemma {:induction false} SumScale<T>(s: seq<T>, f: T -> real, g: T -> real, k: real)
    requires forall x :: g(x) == f(x) * k
    ensures Sum(s, g) == Sum(s, f) * k
  {
    if |s| > 0 {
      SumScale(s[1..], f, g, k);
    }
  }

  /** Filtering by a predicate that is the disjoint union of `p` and `q`
      sums to the two filtered sums. */
  lemma {:induction false} SumFilterSplit<T(!new)>(s: seq<T>, f: T -> real, p: T -> bool, q: T -> bool, u: T -> bool)
    requires forall x :: u(x) == (p(x) || q(x))
    requires forall x :: !(p(x) && q(x))
    ensures Sum(Filter(s, u), f) == Sum(Filter(s, p), f) + Sum(Filter(s, q), f)
  {
    if |s| > 0 {
      SumFilterSplit(s[1..], f, p, q, u);
    }
  }

  /** Position of the first occurrence of `x` in `s`. */
  function IndexOf<T(==,!new)>(s: seq<T>, x: T): (i: nat)
    requires x in s
    ensures i < |s| && s[i] == x
    ensures forall j :: 0 <= j < i ==> s[j] != x
  {
    if s[0] == x then 0 else 1 + IndexOf(s[1..], x)
  }

  /** No element occurs twice. */
  predicate Distinct<T(==,!new)>(s: seq<T>)
  {
    forall i, j :: 0 <= i < j < |s| ==> s[i] != s[j]
  }

  /** `[...new Set(s)]`: the distinct elements of `s`, each where it first
      occurs. */
  function Dedup<T(==,!new)>(s: seq<T>): (r: seq<T>)
    ensures Distinct(r)
    ensures forall x :: x in r <==> x in s
    ensures forall i, j :: 0 <= i < j < |r| ==> IndexOf(s, r[i]) < IndexOf(s, r[j])
  {
    if |s| == 0 then []
    else
      var d := Dedup(s[..|s| - 1]);
      var last := s[|s| - 1];
      assert forall x :: x in s <==> x in s[..|s| - 1] || x == last by {
        assert s == s[..|s| - 1] + [last];
      }
      assert forall x :: x in s[..|s| - 1] ==> IndexOf(s, x) == IndexOf(s[..|s| - 1], x) by {
        forall x | x in s[..|s| - 1]
          ensures IndexOf(s, x) == IndexOf(s[..|s| - 1], x)
        {
          assert s == s[..|s| - 1] + [last];
          IndexOfAppend(s[..|s| - 1], last, x);
        }
      }
      assert last !in s[..|s| - 1] ==> IndexOf(s, last) == |s| - 1 by {
        if last !in s[..|s| - 1] {
          assert s == s[..|s| - 1] + [last];
          IndexOfAppendNew(s[..|s| - 1], last);
        }
      }
      if last in d then d else d + [last]
  }

  /** Appending an element does not move the first occurrence of an element
      already present. */
  lemma {:induction false} IndexOfAppend<T(!new)>(p: seq<T>, y: T, x: T)
    requires x in p
    ensures IndexOf(p + [y], x) == IndexOf(p, x)
  {
    if p[0] != x {
      assert (p + [y])[1..] == p[1..] + [y];
      IndexOfAppend(p[1..], y, x);
    }
  }

  /** An element appended to a list that lacks it first occurs at the end. */
  lemma {:induction false} IndexOfAppendNew<T(!new)>(p: seq<T>, y: T)
    requires y !in p
    ensures IndexOf(p + [y], y) == |p|
  {
    if |p| > 0 {
      assert (p + [y])[1..] == p[1..] + [y];
      IndexOfAppendNew(p[1..], y);
    }
  }
}
