/** The query-builder steps the store applies to a table: `.eq(...)` filters, `.order(...)`,
    `.limit(...)`, and JavaScript's `Array.prototype.reverse`. */
module Seqs {

  /** The rows of `s` that satisfy `p`, in their original order: each kept row occurs as often
      as in `s` (`FilterCounts`) and the order is that of `s` (`FilterAppend`, `FilterOne`). */
  function Filter<T(!new)>(s: seq<T>, p: T -> bool): (r: seq<T>)
    ensures |r| <= |s|
    ensures forall i :: 0 <= i < |r| ==> r[i] in s && p(r[i])
    ensures forall i :: 0 <= i < |s| && p(s[i]) ==> s[i] in r
  {
    if s == [] then []
    else
      assert s == [s[0]] + s[1..];
      if p(s[0]) then [s[0]] + Filter(s[1..], p)
      else Filter(s[1..], p)
  }

  /** A row satisfying `p` is kept as often as it occurs in `s`; any other row not at all. */
  lemma {:induction false} FilterCounts<T(!new)>(s: seq<T>, p: T -> bool)
    ensures forall x :: multiset(Filter(s, p))[x] == if p(x) then multiset(s)[x] else 0
  {
    if s != [] {
      assert s == [s[0]] + s[1..];
      FilterCounts(s[1..], p);
    }
  }

  /** Filtering works piece by piece: the kept rows of `s + t` are the kept rows of `s` followed
      by the kept rows of `t`, so the original order is kept. */
  lemma {:induction false} FilterAppend<T(!new)>(s: seq<T>, t: seq<T>, p: T -> bool)
    ensures Filter(s + t, p) == Filter(s, p) + Filter(t, p)
  {
    if s == [] {
      assert s + t == t;
    } else {
      assert (s + t)[0] == s[0];
      assert (s + t)[1..] == s[1..] + t;
      FilterAppend(s[1..], t, p);
      if p(s[0]) {
        assert [s[0]] + (Filter(s[1..], p) + Filter(t, p)) == [s[0]] + Filter(s[1..], p) + Filter(t, p);
      }
    }
  }

  /** One row is kept exactly when it satisfies `p`. */
  lemma FilterOne<T(!new)>(x: T, p: T -> bool)
    ensures p(x) ==> Filter([x], p) == [x]
    ensures !p(x) ==> Filter([x], p) == []
  {
    assert [x][1..] == [];
  }

  /** `s` is in ascending order of `key`. */
  predicate SortedBy<T>(s: seq<T>, key: T -> int) {
    forall i, j :: 0 <= i < j < |s| ==> key(s[i]) <= key(s[j])
  }

  /** `x` placed before the first element of `s` whose key is not smaller. */
  function Insert<T>(x: T, s: seq<T>, key: T -> int): (r: seq<T>)
    ensures |r| == |s| + 1
    ensures multiset(r) == multiset(s) + multiset{x}
  {
    if s == [] then [x]
    else if key(x) <= key(s[0]) then [x] + s
    else
      assert s == [s[0]] + s[1..];
      [s[0]] + Insert(x, s[1..], key)
  }

  /** Inserting into a sorted sequence keeps it sorted. */
  lemma {:induction false} InsertSorted<T>(x: T, s: seq<T>, key: T -> int)
    requires SortedBy(s, key)
    ensures SortedBy(Insert(x, s, key), key)
  {
    if s != [] && key(x) > key(s[0]) {
      var rest := Insert(x, s[1..], key);
      InsertSorted(x, s[1..], key);
      forall i | 0 <= i < |rest|
        ensures key(s[0]) <= key(rest[i])
      {
        assert rest[i] in multiset(rest);
        if rest[i] != x {
          assert rest[i] in multiset(s[1..]);
          var k :| 0 <= k < |s[1..]| && s[1..][k] == rest[i];
          assert s[k + 1] == rest[i];
        }
      }
    }
  }

  /** `.order(key, { ascending: true })`: the same rows, ascending by `key` (insertion sort). */
  function SortBy<T>(s: seq<T>, key: T -> int): (r: seq<T>)
    ensures |r| == |s|
    ensures multiset(r) == multiset(s)
    ensures SortedBy(r, key)
  {
    if s == [] then []
    else
      assert s == [s[0]] + s[1..];
      InsertSorted(s[0], SortBy(s[1..], key), key);
      Insert(s[0], SortBy(s[1..], key), key)
  }

  /** `s.reverse()`. */
  function Reverse<T>(s: seq<T>): (r: seq<T>)
    ensures |r| == |s|
    ensures forall i :: 0 <= i < |s| ==> r[i] == s[|s| - 1 - i]
  {
    if s == [] then [] else Reverse(s[1..]) + [s[0]]
  }

  /** Reversing keeps every row, as many times as it occurred. */
  lemma {:induction false} ReverseMultiset<T>(s: seq<T>)
    ensures multiset(Reverse(s)) == multiset(s)
  {
    if s != [] {
      ReverseMultiset(s[1..]);
      assert s == [s[0]] + s[1..];
    }
  }

  /** No element occurs twice. */
  predicate NoDuplicates<T(==)>(s: seq<T>) {
    forall i, j :: 0 <= i < j < |s| ==> s[i] != s[j]
  }

  /** Filtering keeps a duplicate-free sequence duplicate-free. */
  lemma {:induction false} FilterNoDuplicates<T(!new)>(s: seq<T>, p: T -> bool)
    requires NoDuplicates(s)
    ensures NoDuplicates(Filter(s, p))
  {
    if s != [] {
      FilterNoDuplicates(s[1..], p);
      var rest := Filter(s[1..], p);
      if p(s[0]) {
        assert s[0] !in s[1..];
        forall i, j | 0 <= i < j < |[s[0]] + rest|
          ensures ([s[0]] + rest)[i] != ([s[0]] + rest)[j]
        {
          if i == 0 {
            assert ([s[0]] + rest)[j] == rest[j - 1];
            assert rest[j - 1] in s[1..];
          }
        }
      }
    }
  }

  /** In a duplicate-free sequence every element is counted at most once. */
  lemma {:induction false} NoDuplicatesCount<T>(s: seq<T>, x: T)
    requires NoDuplicates(s)
    ensures multiset(s)[x] <= 1
  {
    if s != [] {
      assert s == [s[0]] + s[1..];
      NoDuplicatesCount(s[1..], x);
      if s[0] == x {
        assert x !in s[1..];
      }
    }
  }

  /** A reordering of a duplicate-free sequence is duplicate-free. */
  lemma {:induction false} PermutationNoDuplicates<T>(a: seq<T>, b: seq<T>)
    requires multiset(a) == multiset(b)
    requires NoDuplicates(a)
    ensures NoDuplicates(b)
  {
    forall i, j | 0 <= i < j < |b|
      ensures b[i] != b[j]
    {
      NoDuplicatesCount(a, b[i]);
      assert b == b[..j] + b[j..];
      assert multiset(b)[b[i]] == multiset(b[..j])[b[i]] + multiset(b[j..])[b[i]];
    }
  }

  /** Selecting with `p` and ordering by `key` from a duplicate-free sequence gives each element
      that satisfies `p` exactly once, and nothing else. */
  lemma {:induction false} SelectionExactly<T(!new)>(s: seq<T>, p: T -> bool, key: T -> int)
    requires NoDuplicates(s)
    ensures NoDuplicates(SortBy(Filter(s, p), key))
    ensures forall x :: x in SortBy(Filter(s, p), key) <==> x in s && p(x)
  {
    var f := Filter(s, p);
    var r := SortBy(f, key);
    FilterNoDuplicates(s, p);
    PermutationNoDuplicates(f, r);
    forall x
      ensures x in r <==> x in s && p(x)
    {
      assert x in r <==> x in multiset(r);
      assert x in f <==> x in multiset(f);
      assert x in f ==> x in s && p(x) by {
        forall i | 0 <= i < |f| && f[i] == x
          ensures x in s && p(x)
        {
        }
      }
      assert x in s && p(x) ==> x in f by {
        forall i | 0 <= i < |s| && s[i] == x && p(x)
          ensures x in f
        {
        }
      }
    }
  }

  /** An element of a sequence without repetitions occurs once in its multiset. */
  lemma OccursOnce<T>(s: seq<T>, i: nat)
    requires i < |s|
    requires forall a, b :: 0 <= a < b < |s| ==> s[a] != s[b]
    ensures multiset(s)[s[i]] == 1
  {
    assert s == s[..i] + [s[i]] + s[i + 1..];
    assert s[i] !in s[..i];
    assert s[i] !in s[i + 1..] by {
      forall b | i < b < |s| ensures s[b] != s[i] { }
    }
  }

  /** An element found at two positions occurs at least twice in the multiset. */
  lemma OccursTwice<T>(s: seq<T>, lo: nat, hi: nat)
    requires lo < hi < |s| && s[lo] == s[hi]
    ensures multiset(s)[s[lo]] >= 2
  {
    assert s == s[..lo] + [s[lo]] + s[lo + 1..hi] + [s[hi]] + s[hi + 1..];
  }
}
