/** `list.sort()` on lists of strings. Python's sort is modelled by insertion
    sort; `SortedUnique` shows that any correct sort gives the same list, so the
    choice of algorithm does not matter. */
module Sorting {
  import opened Strings
  import opened Seqs

  /** Each element is lexicographically at most the next one. */
  predicate Sorted(s: seq<string>)
  {
    forall i :: 0 < i < |s| ==> LexLe(s[i - 1], s[i])
  }

  /** Places `x` before the first element it does not exceed. */
  function Insert(x: string, s: seq<string>): (r: seq<string>)
    ensures |r| == |s| + 1
  {
    if s == [] then [x]
    else if LexLe(x, s[0]) then [x] + s
    else [s[0]] + Insert(x, s[1..])
  }

  /** Inserting adds exactly one occurrence of `x`. */
  lemma {:induction false} InsertMultiset(x: string, s: seq<string>)
    ensures multiset(Insert(x, s)) == multiset(s) + multiset{x}
  {
    if s != [] && !LexLe(x, s[0]) {
      InsertMultiset(x, s[1..]);
      assert s == [s[0]] + s[1..];
    }
  }

  /** Inserting into a sorted list keeps it sorted. */
  lemma {:induction false} InsertSorted(x: string, s: seq<string>)
    requires Sorted(s)
    ensures Sorted(Insert(x, s))
    ensures Insert(x, s)[0] == x || (s != [] && Insert(x, s)[0] == s[0])
  {
    if s != [] && !LexLe(x, s[0]) {
      LexLeTotal(x, s[0]);
      var rest := s[1..];
      assert Sorted(rest) by {
        forall i | 0 < i < |rest| ensures LexLe(rest[i - 1], rest[i]) {
          assert rest[i - 1] == s[i] && rest[i] == s[i + 1];
        }
      }
      InsertSorted(x, rest);
      var r := Insert(x, rest);
      var t := [s[0]] + r;
      assert Insert(x, s) == t;
      assert LexLe(s[0], r[0]) by {
        if r[0] != x {
          assert r[0] == s[1];
        }
      }
      forall i | 0 < i < |t| ensures LexLe(t[i - 1], t[i]) {
        if i > 1 {
          assert t[i - 1] == r[i - 2] && t[i] == r[i - 1];
        }
      }
    } else if s != [] {
      var t := [x] + s;
      assert Insert(x, s) == t;
      forall i | 0 < i < |t| ensures LexLe(t[i - 1], t[i]) {
        if i > 1 {
          assert t[i - 1] == s[i - 2] && t[i] == s[i - 1];
        }
      }
    }
  }

  /** `sorted(s)`: the same strings in ascending lexicographic order. */
  function Sort(s: seq<string>): (r: seq<string>)
    ensures |r| == |s|
  {
    if s == [] then [] else Insert(s[0], Sort(s[1..]))
  }

  /** The result of `Sort` is sorted and a permutation of its input. */
  lemma {:induction false} SortSorts(s: seq<string>)
    ensures Sorted(Sort(s))
    ensures multiset(Sort(s)) == multiset(s)
  {
    if s != [] {
      SortSorts(s[1..]);
      InsertSorted(s[0], Sort(s[1..]));
      InsertMultiset(s[0], Sort(s[1..]));
      assert s == [s[0]] + s[1..];
    }
  }

  /** In a sorted list every element is at most every later one. */
  lemma {:induction false} SortedPairs(s: seq<string>, i: int, j: int)
    requires Sorted(s) && 0 <= i <= j < |s|
    ensures LexLe(s[i], s[j])
  {
    if i == j {
      LexLeReflexive(s[i]);
    } else {
      SortedPairs(s, i, j - 1);
      LexLeTransitive(s[i], s[j - 1], s[j]);
    }
  }

  /** The last element of a sorted list is its lexicographic maximum. */
  lemma SortedLastIsMax(s: seq<string>, x: string)
    requires Sorted(s) && x in s
    ensures LexLe(x, s[|s| - 1])
  {
    var k :| 0 <= k < |s| && s[k] == x;
    SortedPairs(s, k, |s| - 1);
  }

  /** The first element of a sorted list is its minimum. */
  lemma SortedHeadIsMin(s: seq<string>, x: string)
    requires Sorted(s) && x in s
    ensures LexLe(s[0], x)
  {
    var k :| 0 <= k < |s| && s[k] == x;
    SortedPairs(s, 0, k);
  }

  lemma TailMultiset(s: seq<string>)
    requires s != []
    ensures multiset(s[1..]) == multiset(s) - multiset{s[0]}
  {
    assert s == [s[0]] + s[1..];
  }

  /** Two sorted lists with the same elements are equal: sorting is
      deterministic and does not depend on the order of its input. */
  lemma {:induction false} SortedUnique(a: seq<string>, b: seq<string>)
    requires Sorted(a) && Sorted(b) && multiset(a) == multiset(b)
    ensures a == b
  {
    assert |a| == |multiset(a)| == |multiset(b)| == |b|;
    if a != [] {
      assert a[0] in multiset(b) && b[0] in multiset(a);
      SortedHeadIsMin(b, a[0]);
      SortedHeadIsMin(a, b[0]);
      LexLeAntisymmetric(a[0], b[0]);
      TailMultiset(a);
      TailMultiset(b);
      assert Sorted(a[1..]) && Sorted(b[1..]);
      SortedUnique(a[1..], b[1..]);
      assert a == [a[0]] + a[1..] && b == [b[0]] + b[1..];
    }
  }

  /** A value at two positions occurs at least twice. */
  lemma TwiceCounted(t: seq<string>, i: int, j: int)
    requires 0 <= i < j < |t| && t[i] == t[j]
    ensures multiset(t)[t[i]] >= 2
  {
    assert t == t[..j] + [t[j]] + t[j + 1..];
    assert t[i] in t[..j];
    assert multiset(t) == multiset(t[..j]) + multiset{t[j]} + multiset(t[j + 1..]);
  }

  /** Reordering a list of distinct names keeps them distinct. */
  lemma PermutationDistinct(s: seq<string>, t: seq<string>)
    requires Distinct(s) && multiset(s) == multiset(t)
    ensures Distinct(t)
  {
    forall i, j | 0 <= i < j < |t| ensures t[i] != t[j] {
      if t[i] == t[j] {
        TwiceCounted(t, i, j);
        DistinctCount(s, t[i]);
        assert false;
      }
    }
  }
}
