/** The list operations the stages are built from: filtering, keeping the
    first occurrence of each element, Python's prefix slice `s[:n]` and
    Python's stable `list.sort(key=...)`. */
module Seqs {

  predicate NoDuplicates<T(==)>(s: seq<T>) {
    forall i, j :: 0 <= i < j < |s| ==> s[i] != s[j]
  }

  /** The elements of `s` that satisfy `p`, in their original order. */
  function Filter<T>(s: seq<T>, p: T -> bool): (r: seq<T>)
    ensures |r| <= |s|
    ensures forall k :: 0 <= k < |r| ==> r[k] in s && p(r[k])
    ensures forall k :: 0 <= k < |s| && p(s[k]) ==> s[k] in r
  {
    if |s| == 0 then []
    else Filter(s[..|s| - 1], p) + (if p(s[|s| - 1]) then [s[|s| - 1]] else [])
  }

  /** Two filters with disjoint predicates select no more elements than
      the sequence has. */
  lemma {:induction false} FilterDisjointCount<T>(s: seq<T>, p: T -> bool, q: T -> bool)
    requires forall x :: x in s ==> !(p(x) && q(x))
    ensures |Filter(s, p)| + |Filter(s, q)| <= |s|
    decreases |s|
  {
    if |s| > 0 {
      FilterDisjointCount(s[..|s| - 1], p, q);
    }
  }

  lemma {:induction false} FilterAppend<T>(a: seq<T>, b: seq<T>, p: T -> bool)
    ensures Filter(a + b, p) == Filter(a, p) + Filter(b, p)
    decreases |b|
  {
    if |b| > 0 {
      FilterAppend(a, b[..|b| - 1], p);
      assert (a + b)[..|a + b| - 1] == a + b[..|b| - 1];
    } else {
      assert a + b == a;
    }
  }

  /** Filtering three joined sequences filters each of them. */
  lemma FilterAppend3<T>(a: seq<T>, b: seq<T>, c: seq<T>, p: T -> bool)
    ensures Filter(a + b + c, p) == Filter(a, p) + Filter(b, p) + Filter(c, p)
  {
    FilterAppend(a + b, c, p);
    FilterAppend(a, b, p);
  }

  lemma {:induction false} FilterNoDuplicates<T>(s: seq<T>, p: T -> bool)
    requires NoDuplicates(s)
    ensures NoDuplicates(Filter(s, p))
    decreases |s|
  {
    if |s| > 0 {
      FilterNoDuplicates(s[..|s| - 1], p);
      assert s[|s| - 1] !in s[..|s| - 1];
    }
  }

  /** A filter that every element passes changes nothing. */
  lemma {:induction false} FilterAll<T>(s: seq<T>, p: T -> bool)
    requires forall k :: 0 <= k < |s| ==> p(s[k])
    ensures Filter(s, p) == s
    decreases |s|
  {
    if |s| > 0 {
      FilterAll(s[..|s| - 1], p);
    }
  }

  /** A filter that no element passes leaves nothing. */
  lemma {:induction false} FilterNone<T>(s: seq<T>, p: T -> bool)
    requires forall k :: 0 <= k < |s| ==> !p(s[k])
    ensures Filter(s, p) == []
    decreases |s|
  {
    if |s| > 0 {
      FilterNone(s[..|s| - 1], p);
    }
  }

  /** Filtering a prefix keeps no more than filtering the whole. */
  lemma FilterPrefix<T>(s: seq<T>, n: nat, p: T -> bool)
    requires n <= |s|
    ensures |Filter(s[..n], p)| <= |Filter(s, p)|
  {
    FilterAppend(s[..n], s[n..], p);
    assert s[..n] + s[n..] == s;
  }

  /** Two lists with the same elements, counted with multiplicity, have the
      same number of elements satisfying any predicate. */
  lemma {:induction false} FilterCountPermutation<T>(s: seq<T>, t: seq<T>, p: T -> bool)
    requires multiset(s) == multiset(t)
    ensures |Filter(s, p)| == |Filter(t, p)|
    decreases |s|
  {
    if |s| == 0 {
      assert |t| == |multiset(t)| == 0;
    } else {
      var x := s[|s| - 1];
      assert x in multiset(t);
      var k :| 0 <= k < |t| && t[k] == x;
      var t' := t[..k] + t[k + 1..];
      assert t == t[..k] + [x] + t[k + 1..];
      assert s == s[..|s| - 1] + [x];
      assert multiset(t) == multiset(t[..k]) + multiset{x} + multiset(t[k + 1..]);
      assert multiset(t') == multiset(t[..k]) + multiset(t[k + 1..]);
      assert multiset(s) == multiset(s[..|s| - 1]) + multiset{x};
      assert multiset(s[..|s| - 1]) == multiset(s) - multiset{x};
      assert multiset(t') == multiset(t) - multiset{x};
      FilterCountPermutation(s[..|s| - 1], t', p);
      FilterAppend(t[..k], t[k + 1..], p);
      FilterAppend(t[..k] + [x], t[k + 1..], p);
      FilterAppend(t[..k], [x], p);
      assert Filter([x], p) == Filter([], p) + (if p(x) then [x] else []);
    }
  }

  /** The first occurrence of each element of `s`, in their original order. */
  function FirstOccurrences<T(==)>(s: seq<T>): (r: seq<T>)
    ensures forall k :: 0 <= k < |r| ==> r[k] in s
    ensures forall k :: 0 <= k < |s| ==> s[k] in r
    ensures NoDuplicates(r)
  {
    if |s| == 0 then []
    else
      var init := FirstOccurrences(s[..|s| - 1]);
      if s[|s| - 1] in s[..|s| - 1] then init else init + [s[|s| - 1]]
  }

  /** On a duplicate-free list, keeping first occurrences is the identity. */
  lemma {:induction false} FirstOccurrencesOfDistinct<T>(s: seq<T>)
    requires NoDuplicates(s)
    ensures FirstOccurrences(s) == s
    decreases |s|
  {
    if |s| > 0 {
      FirstOccurrencesOfDistinct(s[..|s| - 1]);
      assert s[|s| - 1] !in s[..|s| - 1];
      assert s == s[..|s| - 1] + [s[|s| - 1]];
    }
  }

  /** Keeping first occurrences a second time changes nothing. */
  lemma FirstOccurrencesIdempotent<T>(s: seq<T>)
    ensures FirstOccurrences(FirstOccurrences(s)) == FirstOccurrences(s)
  {
    FirstOccurrencesOfDistinct(FirstOccurrences(s));
  }

  /** Python's `s[:n]`: a prefix of `s`; a negative `n` drops that many
      elements from the end. */
  function PyPrefix<T>(s: seq<T>, n: int): (r: seq<T>)
    ensures |r| <= |s| && r == s[..|r|]
    ensures 0 <= n ==> |r| == if n <= |s| then n else |s|
    ensures n < 0 ==> |r| == if -n <= |s| then |s| + n else 0
  {
    if 0 <= n then (if n <= |s| then s[..n] else s)
    else if -n <= |s| then s[..|s| + n]
    else []
  }

  /** A cut at or beyond the length keeps the whole sequence. */
  lemma PyPrefixWhole<T>(s: seq<T>, n: int)
    requires |s| <= n
    ensures PyPrefix(s, n) == s
  {
    assert s[..|s|] == s;
  }

  /** The keys of `s` never decrease. */
  predicate SortedBy<T>(s: seq<T>, key: T -> int) {
    forall i, j :: 0 <= i < j < |s| ==> key(s[i]) <= key(s[j])
  }

  /** Inserts `x` after every element whose key is at most `key(x)`. */
  function InsertBy<T(==)>(x: T, s: seq<T>, key: T -> int): (r: seq<T>)
    requires SortedBy(s, key)
    ensures SortedBy(r, key)
    ensures multiset(r) == multiset(s) + multiset{x}
    ensures forall k :: 0 <= k < |r| ==> r[k] == x || r[k] in s
  {
    if |s| == 0 then [x]
    else if key(x) < key(s[0]) then [x] + s
    else
      var rest := InsertBy(x, s[1..], key);
      assert s == [s[0]] + s[1..];
      InsertAfterHead(s[0], s[1..], x, rest, key);
      [s[0]] + rest
  }

  /** Putting back a head no larger than anything after it, nor than the
      inserted element, keeps the insertion sorted. */
  lemma InsertAfterHead<T>(h: T, t: seq<T>, x: T, rest: seq<T>, key: T -> int)
    requires SortedBy([h] + t, key) && key(h) <= key(x)
    requires SortedBy(rest, key) && multiset(rest) == multiset(t) + multiset{x}
    requires forall k :: 0 <= k < |rest| ==> rest[k] == x || rest[k] in t
    ensures SortedBy([h] + rest, key)
    ensures multiset([h] + rest) == multiset([h] + t) + multiset{x}
    ensures forall k :: 0 <= k < |rest| + 1 ==> ([h] + rest)[k] == x || ([h] + rest)[k] in [h] + t
  {
    assert forall k :: 0 <= k < |t| ==> key(h) <= key(t[k]) by {
      forall k | 0 <= k < |t| ensures key(h) <= key(t[k]) {
        assert ([h] + t)[0] == h && ([h] + t)[k + 1] == t[k];
      }
    }
    assert forall k :: 0 <= k < |rest| ==> key(h) <= key(rest[k]);
  }

  /** Python's stable `sorted(s, key=key)`, as an insertion sort. */
  function SortBy<T(==)>(s: seq<T>, key: T -> int): (r: seq<T>)
    ensures SortedBy(r, key)
    ensures multiset(r) == multiset(s)
  {
    if |s| == 0 then []
    else
      assert s == s[..|s| - 1] + [s[|s| - 1]];
      InsertBy(s[|s| - 1], SortBy(s[..|s| - 1], key), key)
  }

  /** A permutation of a duplicate-free list is duplicate-free. */
  lemma {:induction false} PermutationNoDuplicates<T>(s: seq<T>, t: seq<T>)
    requires multiset(s) == multiset(t) && NoDuplicates(s)
    ensures NoDuplicates(t)
  {
    forall i, j | 0 <= i < j < |t| ensures t[i] != t[j] {
      if t[i] == t[j] {
        var x := t[i];
        assert t == t[..i] + [x] + t[i + 1..j] + [x] + t[j + 1..];
        assert multiset(t)[x] >= 2;
        MultiplicityOfDistinct(s, x);
      }
    }
  }

  /** In a duplicate-free list every element occurs at most once. */
  lemma {:induction false} MultiplicityOfDistinct<T>(s: seq<T>, x: T)
    requires NoDuplicates(s)
    ensures multiset(s)[x] <= 1
    decreases |s|
  {
    if |s| > 0 {
      MultiplicityOfDistinct(s[..|s| - 1], x);
      assert s == s[..|s| - 1] + [s[|s| - 1]];
      assert s[|s| - 1] !in s[..|s| - 1];
    }
  }

  /** A sequence has at least as many positions as distinct elements, and
      exactly as many when it has no repeats. */
  lemma {:induction false} ElementsCardinality<T>(s: seq<T>)
    ensures |(set x | x in s)| <= |s|
    ensures NoDuplicates(s) ==> |(set x | x in s)| == |s|
    decreases |s|
  {
    if |s| > 0 {
      var init := s[..|s| - 1];
      ElementsCardinality(init);
      assert (set x | x in s) == (set x | x in init) + {s[|s| - 1]} by {
        assert s == init + [s[|s| - 1]];
      }
    }
  }

  /** A repeat-free sequence drawn from `t` is no longer than `t`. */
  lemma DistinctDrawnShorter<T>(s: seq<T>, t: seq<T>)
    requires NoDuplicates(s) && forall k :: 0 <= k < |s| ==> s[k] in t
    ensures |s| <= |t|
  {
    ElementsCardinality(s);
    ElementsCardinality(t);
    var a := set x | x in s;
    var b := set x | x in t;
    assert a <= b;
    SubsetCardinality(a, b);
  }

  lemma SubsetCardinality<T>(a: set<T>, b: set<T>)
    requires a <= b
    ensures |a| <= |b|
  {
    assert b == a + (b - a);
  }

  /** Joining a sequence with empty ones, in any of three places. */
  lemma JoinedWithEmpties<T>(s: seq<T>)
    ensures s + [] + [] == s && [] + s + [] == s && [] + [] + s == s
  {
  }

  /** Indexing four joined sequences within the first three. */
  lemma JoinedIndex<T>(a: seq<T>, b: seq<T>, c: seq<T>, d: seq<T>, j: nat)
    requires j < |a| + |b| + |c|
    ensures (a + b + c + d)[j] == if j < |a| then a[j] else if j < |a| + |b| then b[j - |a|] else c[j - |a| - |b|]
  {
  }

  /** Indexing a Python prefix of three joined sequences. */
  lemma PyPrefixJoinedIndex<T>(a: seq<T>, b: seq<T>, c: seq<T>, n: int, k: nat)
    requires k < |PyPrefix(a + b + c, n)|
    ensures PyPrefix(a + b + c, n)[k] == if k < |a| then a[k] else if k < |a| + |b| then b[k - |a|] else c[k - |a| - |b|]
  {
    assert PyPrefix(a + b + c, n)[k] == (a + b + c)[k];
  }

  /** Indexing four joined sequences within one of the first three. */
  lemma SegmentIndex<T>(a: seq<T>, b: seq<T>, c: seq<T>, d: seq<T>, offset: nat, segment: seq<T>, i: nat)
    requires (offset == 0 && segment == a) || (offset == |a| && segment == b) || (offset == |a| + |b| && segment == c)
    requires i < |segment|
    ensures offset + i < |a + b + c + d| && (a + b + c + d)[offset + i] == segment[i]
  {
  }

  lemma PrefixDistinct<T>(s: seq<T>, n: nat, i: nat, j: nat)
    requires n <= |s| && NoDuplicates(s[..n]) && i < j < n
    ensures s[i] != s[j]
  {
    assert s[i] == s[..n][i] && s[j] == s[..n][j];
  }

  /** A list that ends with the elements of `s` satisfying `p` holds each
      of them. */
  lemma FilteredSuffixKeeps<T>(s: seq<T>, result: seq<T>, n: nat, p: T -> bool)
    requires n <= |result| && result[n..] == Filter(s, p)
    ensures forall k :: 0 <= k < |s| && p(s[k]) ==> s[k] in result
  {
    forall k | 0 <= k < |s| && p(s[k]) ensures s[k] in result {
      var j :| 0 <= j < |Filter(s, p)| && Filter(s, p)[j] == s[k];
      assert result[n + j] == s[k];
    }
  }

  lemma ConcatAssociative<T>(a: seq<T>, b: seq<T>, c: seq<T>)
    ensures (a + b) + c == a + (b + c)
  {
  }
}
