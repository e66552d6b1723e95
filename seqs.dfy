/**
 * Generic list operations that every view of the dashboard is built from:
 * `Array.prototype.filter` and the stable `Array.prototype.sort`.
 */
module Seqs {

  /** `r` can be obtained from `s` by deleting elements, keeping the order of the rest. */
  predicate IsSubsequence<T(==)>(r: seq<T>, s: seq<T>)
    decreases |s|
  {
    |r| == 0 ||
    (|s| > 0 && ((r[0] == s[0] && IsSubsequence(r[1..], s[1..])) || IsSubsequence(r, s[1..])))
  }

  /** `s.filter(p)`: the elements of `s` that satisfy `p`, in their original order. */
  function Filter<T(==)>(p: T -> bool, s: seq<T>): (r: seq<T>)
    ensures |r| <= |s|
    ensures forall i :: 0 <= i < |r| ==> p(r[i])
    ensures IsSubsequence(r, s)
    decreases |s|
  {
    if |s| == 0 then []
    else
      assert s == [s[0]] + s[1..];
      if p(s[0]) then [s[0]] + Filter(p, s[1..]) else Filter(p, s[1..])
  }

  /**
   * The filter's elements are elements of `s`, every element of `s` that satisfies `p` is
   * kept, and no element is kept more often than `s` holds it.
   */
  lemma FilterMembers<T>(p: T -> bool, s: seq<T>)
    ensures var r := Filter(p, s);
      && (forall i :: 0 <= i < |r| ==> r[i] in s)
      && (forall i :: 0 <= i < |s| && p(s[i]) ==> s[i] in r)
      && multiset(r) <= multiset(s)
  {
    var r := Filter(p, s);
    FilterMultiplicity(p, s);
    forall i | 0 <= i < |r| ensures r[i] in s {
      assert r[i] in multiset(r);
    }
    forall i | 0 <= i < |s| && p(s[i]) ensures s[i] in r {
      assert s[i] in multiset(s);
    }
  }

  /** The filter keeps every element that satisfies `p` as often as `s` holds it, and no other. */
  lemma {:induction false} FilterMultiplicity<T>(p: T -> bool, s: seq<T>)
    ensures forall x :: multiset(Filter(p, s))[x] == if p(x) then multiset(s)[x] else 0
    decreases |s|
  {
    if |s| > 0 {
      assert s == [s[0]] + s[1..];
      FilterMultiplicity(p, s[1..]);
      FilterCons(p, s[0], s[1..]);
    }
  }

  /** The number of indices of `s` whose element satisfies `p`. */
  function IndexCount<T>(p: T -> bool, s: seq<T>): nat
  {
    |set i | 0 <= i < |s| && p(s[i])|
  }

  /** The filter has one element per index of `s` whose element satisfies `p`. */
  lemma FilterLength<T>(p: T -> bool, s: seq<T>)
    ensures |Filter(p, s)| == IndexCount(p, s)
  {
    FilterLengthFrom(p, s, 0);
    assert s[0..] == s;
  }

  lemma {:induction false} FilterLengthFrom<T>(p: T -> bool, s: seq<T>, k: nat)
    requires k <= |s|
    ensures |Filter(p, s[k..])| == |set i | k <= i < |s| && p(s[i])|
    decreases |s| - k
  {
    var here := set i | k <= i < |s| && p(s[i]);
    if k == |s| {
      assert here == {};
    } else {
      FilterLengthFrom(p, s, k + 1);
      var rest := set i | k + 1 <= i < |s| && p(s[i]);
      assert s[k..] == [s[k]] + s[k + 1..];
      FilterCons(p, s[k], s[k + 1..]);
      assert here == rest + (if p(s[k]) then {k} else {});
    }
  }

  /** A filter that every element passes returns its input unchanged. */
  lemma {:induction false} FilterKeepsAll<T>(p: T -> bool, s: seq<T>)
    requires forall i :: 0 <= i < |s| ==> p(s[i])
    ensures Filter(p, s) == s
    decreases |s|
  {
    if |s| > 0 {
      FilterKeepsAll(p, s[1..]);
    }
  }

  /** Filtering twice by the same predicate is filtering once. */
  lemma FilterIdempotent<T>(p: T -> bool, s: seq<T>)
    ensures Filter(p, Filter(p, s)) == Filter(p, s)
  {
    FilterKeepsAll(p, Filter(p, s));
  }

  /** Two filters whose predicates never hold together take at most all of the list between them. */
  lemma {:induction false} FilterDisjoint<T>(p: T -> bool, q: T -> bool, s: seq<T>)
    requires forall i :: 0 <= i < |s| ==> !(p(s[i]) && q(s[i]))
    ensures |Filter(p, s)| + |Filter(q, s)| <= |s|
    decreases |s|
  {
    if |s| > 0 {
      var t := s[1..];
      assert forall i :: 0 <= i < |t| ==> t[i] == s[i + 1];
      FilterDisjoint(p, q, t);
    }
  }

  /** Peels the first element off the multiset of a filter. */
  lemma FilterMultisetCons<T>(p: T -> bool, s: seq<T>)
    requires |s| > 0
    ensures multiset(Filter(p, s)) ==
              (if p(s[0]) then multiset{s[0]} else multiset{}) + multiset(Filter(p, s[1..]))
  {
    if p(s[0]) {
      assert Filter(p, s) == [s[0]] + Filter(p, s[1..]);
    }
  }

  /** One step of `FilterPartition`: the first element goes to exactly one of the two filters. */
  lemma PartitionStep<T>(p: T -> bool, q: T -> bool, s: seq<T>)
    requires |s| > 0 && p(s[0]) != q(s[0])
    requires multiset(Filter(p, s[1..])) + multiset(Filter(q, s[1..])) == multiset(s[1..])
    ensures multiset(Filter(p, s)) + multiset(Filter(q, s)) == multiset(s)
  {
    var t := s[1..];
    var x, a, b := s[0], Filter(p, t), Filter(q, t);
    assert multiset(s) == multiset{x} + multiset(t) by {
      assert s == [x] + t;
    }
    if p(x) {
      assert Filter(p, s) == [x] + a;
      assert Filter(q, s) == b;
      MultisetRegroup(multiset{x}, multiset(a), multiset(b));
    } else {
      assert Filter(q, s) == [x] + b;
      assert Filter(p, s) == a;
      MultisetRegroup(multiset{x}, multiset(b), multiset(a));
    }
  }

  lemma MultisetRegroup<T>(x: multiset<T>, a: multiset<T>, b: multiset<T>)
    ensures (x + a) + b == x + (a + b) && a + (x + b) == x + (a + b) && a + b == b + a
  {
  }

  /** When exactly one of two predicates holds of every element, their filters split the list. */
  lemma {:induction false} FilterPartition<T>(p: T -> bool, q: T -> bool, s: seq<T>)
    requires forall i :: 0 <= i < |s| ==> p(s[i]) != q(s[i])
    ensures multiset(Filter(p, s)) + multiset(Filter(q, s)) == multiset(s)
    ensures |Filter(p, s)| + |Filter(q, s)| == |s|
    decreases |s|
  {
    if |s| > 0 {
      var t := s[1..];
      assert forall i :: 0 <= i < |t| ==> t[i] == s[i + 1];
      FilterPartition(p, q, t);
      PartitionStep(p, q, s);
    }
    assert |multiset(Filter(p, s)) + multiset(Filter(q, s))| == |multiset(s)|;
  }

  /** A weaker predicate keeps at least as many elements. */
  lemma {:induction false} FilterMonotone<T>(p: T -> bool, q: T -> bool, s: seq<T>)
    requires forall i :: 0 <= i < |s| && p(s[i]) ==> q(s[i])
    ensures |Filter(p, s)| <= |Filter(q, s)|
    decreases |s|
  {
    if |s| > 0 {
      FilterMonotone(p, q, s[1..]);
    }
  }

  /** Filters by predicates that agree on every element are equal. */
  lemma {:induction false} FilterSame<T>(p: T -> bool, q: T -> bool, s: seq<T>)
    requires forall i :: 0 <= i < |s| ==> p(s[i]) == q(s[i])
    ensures Filter(p, s) == Filter(q, s)
    decreases |s|
  {
    if |s| > 0 {
      var t := s[1..];
      assert forall i :: 0 <= i < |t| ==> t[i] == s[i + 1];
      FilterSame(p, q, t);
    }
  }

  /** Filtering out exactly one element removes it and keeps the rest in order. */
  lemma {:induction false} FilterDropsOne<T>(p: T -> bool, s: seq<T>, k: int)
    requires 0 <= k < |s| && !p(s[k])
    requires forall i :: 0 <= i < |s| && i != k ==> p(s[i])
    ensures Filter(p, s) == s[..k] + s[k + 1..]
    decreases |s|
  {
    var t := s[1..];
    if k == 0 {
      FilterDropsFirst(p, s);
    } else {
      forall i | 0 <= i < |t| && i != k - 1 ensures p(t[i]) {
        assert t[i] == s[i + 1];
      }
      assert t[k - 1] == s[k];
      FilterDropsOne(p, t, k - 1);
      assert Filter(p, s) == [s[0]] + Filter(p, t);
      DropSplit(s, k);
    }
  }

  lemma DropSplit<T>(s: seq<T>, k: int)
    requires 0 < k < |s|
    ensures s[..k] + s[k + 1..] == [s[0]] + (s[1..][..k - 1] + s[1..][k..])
  {
    assert s[..k] == [s[0]] + s[1..][..k - 1];
    assert s[k + 1..] == s[1..][k..];
  }

  lemma FilterDropsFirst<T>(p: T -> bool, s: seq<T>)
    requires 0 < |s| && !p(s[0])
    requires forall i :: 0 < i < |s| ==> p(s[i])
    ensures Filter(p, s) == s[1..]
  {
    var t := s[1..];
    forall i | 0 <= i < |t| ensures p(t[i]) {
      assert t[i] == s[i + 1];
    }
    FilterKeepsAll(p, t);
  }

  /** `rel` holds between every element of `s` and each later one. */
  predicate Pairwise<T>(rel: (T, T) -> bool, s: seq<T>)
  {
    forall i, j :: 0 <= i < j < |s| ==> rel(s[i], s[j])
  }

  lemma ConsPairwise<T>(rel: (T, T) -> bool, x: T, u: seq<T>)
    requires Pairwise(rel, u)
    requires forall k :: 0 <= k < |u| ==> rel(x, u[k])
    ensures Pairwise(rel, [x] + u)
  {
    var r := [x] + u;
    forall i, j | 0 <= i < j < |r| ensures rel(r[i], r[j]) {
      if i == 0 {
        assert r[j] == u[j - 1];
      } else {
        assert r[i] == u[i - 1] && r[j] == u[j - 1];
      }
    }
  }

  /** A relation that holds between every element and each later one still does after filtering. */
  lemma {:induction false} FilterPairwise<T>(rel: (T, T) -> bool, p: T -> bool, s: seq<T>)
    requires Pairwise(rel, s)
    ensures Pairwise(rel, Filter(p, s))
    decreases |s|
  {
    if |s| > 0 {
      var t := s[1..];
      assert Pairwise(rel, t) by {
        forall i, j | 0 <= i < j < |t| ensures rel(t[i], t[j]) {
          assert t[i] == s[i + 1] && t[j] == s[j + 1];
        }
      }
      FilterPairwise(rel, p, t);
      var ft := Filter(p, t);
      FilterMembers(p, t);
      if p(s[0]) {
        assert Filter(p, s) == [s[0]] + ft;
        forall k | 0 <= k < |ft| ensures rel(s[0], ft[k]) {
          var m :| 0 <= m < |t| && t[m] == ft[k];
          assert s[m + 1] == t[m];
        }
        ConsPairwise(rel, s[0], ft);
      }
    }
  }

  /** `le` is a total preorder: every two values compare, and comparison is transitive. */
  ghost predicate TotalPreorder<T(!new)>(le: (T, T) -> bool)
  {
    && (forall a, b :: le(a, b) || le(b, a))
    && (forall a, b, c :: le(a, b) && le(b, c) ==> le(a, c))
  }

  /** Every element is `le` every element after it. */
  predicate SortedBy<T>(le: (T, T) -> bool, s: seq<T>)
  {
    Pairwise(le, s)
  }

  /** Inserts `x` in front of the first element it is `le`. */
  function Insert<T(==)>(le: (T, T) -> bool, x: T, s: seq<T>): (r: seq<T>)
    ensures multiset(r) == multiset(s) + multiset{x}
    ensures |r| == |s| + 1
    decreases |s|
  {
    if |s| == 0 then [x]
    else if le(x, s[0]) then [x] + s
    else
      assert s == [s[0]] + s[1..];
      [s[0]] + Insert(le, x, s[1..])
  }

  /**
   * `[...s].sort(cmp)` where `le(a, b)` means `cmp(a, b) <= 0`: an insertion sort, which
   * keeps elements that compare equal in their input order, as the stable JavaScript sort does.
   */
  function SortBy<T(==)>(le: (T, T) -> bool, s: seq<T>): (r: seq<T>)
    ensures multiset(r) == multiset(s)
    ensures |r| == |s|
    decreases |s|
  {
    if |s| == 0 then []
    else
      assert s == [s[0]] + s[1..];
      Insert(le, s[0], SortBy(le, s[1..]))
  }

  lemma {:induction false} InsertSorted<T(!new)>(le: (T, T) -> bool, x: T, s: seq<T>)
    requires TotalPreorder(le)
    requires SortedBy(le, s)
    ensures SortedBy(le, Insert(le, x, s))
    decreases |s|
  {
    if |s| > 0 {
      var r := Insert(le, x, s);
      if le(x, s[0]) {
        assert r == [x] + s;
        forall k | 0 <= k < |s| ensures le(x, s[k]) {
          if k > 0 {
            assert le(s[0], s[k]);
          }
        }
        ConsPairwise(le, x, s);
      } else {
        var t := s[1..];
        assert SortedBy(le, t) by {
          forall i, j | 0 <= i < j < |t| ensures le(t[i], t[j]) {
            assert t[i] == s[i + 1] && t[j] == s[j + 1];
          }
        }
        InsertSorted(le, x, t);
        var u := Insert(le, x, t);
        forall k | 0 <= k < |u| ensures le(s[0], u[k]) {
          InsertElement(le, x, t, u[k]);
          if u[k] != x {
            var j :| 0 <= j < |t| && t[j] == u[k];
            assert s[j + 1] == u[k];
          }
        }
        assert r == [s[0]] + u;
        ConsPairwise(le, s[0], u);
      }
    }
  }

  /** An element of `Insert(le, x, s)` is `x` or an element of `s`. */
  lemma InsertElement<T>(le: (T, T) -> bool, x: T, s: seq<T>, y: T)
    requires y in Insert(le, x, s)
    ensures y == x || y in s
  {
    assert y in multiset(Insert(le, x, s));
  }

  /** Under a total preorder the sort's result is sorted. */
  lemma {:induction false} SortBySorted<T(!new)>(le: (T, T) -> bool, s: seq<T>)
    requires TotalPreorder(le)
    ensures SortedBy(le, SortBy(le, s))
    decreases |s|
  {
    if |s| > 0 {
      SortBySorted(le, s[1..]);
      InsertSorted(le, s[0], SortBy(le, s[1..]));
    }
  }

  /** The elements that compare equal to `x` under `le`. */
  function EquivalentTo<T>(le: (T, T) -> bool, x: T): T -> bool
  {
    y => le(x, y) && le(y, x)
  }

  /** Filtering a list with a known first element. */
  lemma FilterCons<T>(p: T -> bool, a: T, t: seq<T>)
    ensures Filter(p, [a] + t) == (if p(a) then [a] else []) + Filter(p, t)
  {
    assert ([a] + t)[1..] == t;
  }

  /** Of two pieces at most one of which is non-empty, either may go first. */
  lemma SwapEmpty<T>(a: seq<T>, b: seq<T>, c: seq<T>)
    requires |a| == 0 || |b| == 0
    ensures a + (b + c) == b + (a + c)
  {
    if |a| == 0 {
      assert a + (b + c) == b + c && a + c == c;
    } else {
      assert b + (a + c) == a + c && b + c == c;
    }
  }

  lemma {:induction false} InsertStable<T(!new)>(le: (T, T) -> bool, x: T, y: T, s: seq<T>)
    requires TotalPreorder(le)
    ensures Filter(EquivalentTo(le, x), Insert(le, y, s)) ==
            (if EquivalentTo(le, x)(y) then [y] else []) + Filter(EquivalentTo(le, x), s)
    decreases |s|
  {
    var e := EquivalentTo(le, x);
    if |s| == 0 {
      FilterCons(e, y, []);
    } else if le(y, s[0]) {
      FilterCons(e, y, s);
    } else {
      var t := s[1..];
      assert s == [s[0]] + t;
      var u := Insert(le, y, t);
      var before := if e(s[0]) then [s[0]] else [];
      var here := if e(y) then [y] else [];
      assert Insert(le, y, s) == [s[0]] + u;
      FilterCons(e, s[0], u);
      InsertStable(le, x, y, t);
      FilterCons(e, s[0], t);
      assert e(y) ==> !e(s[0]);
      SwapEmpty(before, here, Filter(e, t));
    }
  }

  /**
   * The sort is stable: the elements that compare equal to any given `x` appear in the
   * result in the same order as in the input.
   */
  lemma {:induction false} SortByStable<T(!new)>(le: (T, T) -> bool, x: T, s: seq<T>)
    requires TotalPreorder(le)
    ensures Filter(EquivalentTo(le, x), SortBy(le, s)) == Filter(EquivalentTo(le, x), s)
    decreases |s|
  {
    if |s| > 0 {
      SortByStable(le, x, s[1..]);
      InsertStable(le, x, s[0], SortBy(le, s[1..]));
    }
  }

  /** The filter is empty exactly when no element satisfies the predicate. */
  lemma FilterEmpty<T>(p: T -> bool, s: seq<T>)
    ensures |Filter(p, s)| == 0 <==> forall i :: 0 <= i < |s| ==> !p(s[i])
  {
    var r := Filter(p, s);
    FilterMembers(p, s);
    if |r| > 0 {
      assert p(r[0]) && r[0] in s;
    }
  }

  /** Appending `f(|s|)` to a sequence that agrees with `f` keeps it in agreement. */
  lemma PushAgrees<T>(s: seq<T>, x: T, f: int -> T)
    requires forall k :: 0 <= k < |s| ==> s[k] == f(k)
    requires x == f(|s|)
    ensures forall k :: 0 <= k < |s| + 1 ==> (s + [x])[k] == f(k)
  {
  }

  /** A sequence that agrees with `f` at every index is `seq(|s|, f)`. */
  lemma SeqAgrees<T>(s: seq<T>, f: int -> T)
    requires forall k :: 0 <= k < |s| ==> s[k] == f(k)
    ensures s == seq(|s|, f)
  {
  }

  /** The `n` first elements of `s`, or all of them when there are fewer: `s.slice(0, n)`. */
  function Take<T>(s: seq<T>, n: nat): (r: seq<T>)
    ensures |r| <= n && |r| <= |s|
    ensures |r| == n || |r| == |s|
    ensures r == s[..|r|]
  {
    if |s| <= n then s else s[..n]
  }

  /** The first elements of `s` are some of its elements. */
  lemma TakeMultiset<T>(s: seq<T>, n: nat)
    ensures multiset(Take(s, n)) <= multiset(s)
  {
    var r := Take(s, n);
    assert s == r + s[|r|..];
  }

  /** The elements of the first `n` of `s` that satisfy `p` come first among those of `s`. */
  lemma TakeFilterPrefix<T>(p: T -> bool, s: seq<T>, n: nat)
    ensures Filter(p, Take(s, n)) <= Filter(p, s)
  {
    PrefixFilterPrefix(p, s, |Take(s, n)|);
  }

  lemma {:induction false} PrefixFilterPrefix<T>(p: T -> bool, s: seq<T>, n: nat)
    requires n <= |s|
    ensures Filter(p, s[..n]) <= Filter(p, s)
    decreases n
  {
    if n == 0 {
      assert s[..n] == [];
    } else {
      var t, u := s[1..], s[1..][..n - 1];
      PrefixFilterPrefix(p, t, n - 1);
      assert s == [s[0]] + t;
      assert s[..n] == [s[0]] + u;
      FilterCons(p, s[0], t);
      FilterCons(p, s[0], u);
      PrefixCons(if p(s[0]) then [s[0]] else [], Filter(p, u), Filter(p, t));
    }
  }

  /** Putting the same elements in front of two sequences keeps one a prefix of the other. */
  lemma PrefixCons<T>(h: seq<T>, a: seq<T>, b: seq<T>)
    requires a <= b
    ensures h + a <= h + b
  {
  }

  /** A prefix of a sorted sequence is sorted. */
  lemma TakeSorted<T>(le: (T, T) -> bool, s: seq<T>, n: nat)
    requires SortedBy(le, s)
    ensures SortedBy(le, Take(s, n))
  {
    var r := Take(s, n);
    assert forall i :: 0 <= i < |r| ==> r[i] == s[i];
  }

  /** An element of a sorted sequence that its first `n` leave out is preceded by `n` no greater ones. */
  lemma TakeSortedLeftOut<T>(le: (T, T) -> bool, s: seq<T>, n: nat, x: T)
    requires SortedBy(le, s)
    requires x in s && x !in Take(s, n)
    ensures |Take(s, n)| == n && forall i :: 0 <= i < n ==> le(Take(s, n)[i], x)
  {
    var r := Take(s, n);
    var j :| 0 <= j < |s| && s[j] == x;
    assert forall i :: 0 <= i < |r| ==> r[i] == s[i] && s[i] != x;
  }

  /** A copy of `x` that the first `n` elements of a sorted sequence leave out is preceded by `n` no greater ones. */
  lemma TakeSortedLeftOutCopy<T>(le: (T, T) -> bool, s: seq<T>, n: nat, x: T)
    requires SortedBy(le, s)
    requires multiset(Take(s, n))[x] < multiset(s)[x]
    ensures |Take(s, n)| == n && forall i :: 0 <= i < n ==> le(Take(s, n)[i], x)
  {
    var r := Take(s, n);
    var rest := s[|r|..];
    assert s == r + rest;
    assert x in multiset(rest);
    var j :| 0 <= j < |rest| && rest[j] == x;
    assert s[|r| + j] == x;
  }

  /**
   * `s.filter(p).sort(le).slice(0, n)` counted copy by copy: it holds `n` elements, or all
   * of those satisfying `p` when there are fewer; it takes no element more often than `s`
   * holds it; and a copy of an element satisfying `p` is left out only because `n`
   * elements no greater than it were kept.
   */
  lemma EarliestCopiesKept<T(!new)>(le: (T, T) -> bool, p: T -> bool, s: seq<T>, n: nat)
    requires TotalPreorder(le)
    ensures var r := Take(SortBy(le, Filter(p, s)), n);
      && |r| == (if IndexCount(p, s) < n then IndexCount(p, s) else n)
      && multiset(r) <= multiset(s)
      && (forall x :: p(x) && multiset(r)[x] < multiset(s)[x] ==>
            |r| == n && forall i :: 0 <= i < |r| ==> le(r[i], x))
  {
    var f := Filter(p, s);
    var sorted := SortBy(le, f);
    var r := Take(sorted, n);
    FilterLength(p, s);
    FilterMultiplicity(p, s);
    FilterMembers(p, s);
    TakeMultiset(sorted, n);
    SortBySorted(le, f);
    forall x | p(x) && multiset(r)[x] < multiset(s)[x]
      ensures |r| == n && forall i :: 0 <= i < |r| ==> le(r[i], x)
    {
      assert multiset(sorted)[x] == multiset(s)[x];
      TakeSortedLeftOutCopy(le, sorted, n, x);
    }
  }

  /**
   * `s.filter(p).sort(le).slice(0, n)` keeps the earliest of the elements satisfying `p`:
   * at most `n` of them, sorted, and any element satisfying `p` that is left out is left
   * out only because `n` elements no greater than it were kept.
   */
  lemma EarliestKept<T(!new)>(le: (T, T) -> bool, p: T -> bool, s: seq<T>, n: nat)
    requires TotalPreorder(le)
    ensures var r := Take(SortBy(le, Filter(p, s)), n);
      && |r| <= n
      && (forall i :: 0 <= i < |r| ==> r[i] in s && p(r[i]))
      && SortedBy(le, r)
      && (forall k :: 0 <= k < |s| && p(s[k]) && s[k] !in r ==>
            |r| == n && forall i :: 0 <= i < |r| ==> le(r[i], s[k]))
  {
    var f := Filter(p, s);
    var sorted := SortBy(le, f);
    var r := Take(sorted, n);
    FilterMembers(p, s);
    SortBySorted(le, f);
    TakeSorted(le, sorted, n);
    forall i | 0 <= i < |r| ensures r[i] in s && p(r[i]) {
      assert r[i] == sorted[i];
      assert r[i] in multiset(f);
      var j :| 0 <= j < |f| && f[j] == r[i];
    }
    forall k | 0 <= k < |s| && p(s[k]) && s[k] !in r
      ensures |r| == n && forall i :: 0 <= i < |r| ==> le(r[i], s[k])
    {
      assert s[k] in multiset(sorted);
      TakeSortedLeftOut(le, sorted, n, s[k]);
    }
  }
}
