/**
 * Go's `sort.Strings`: strings in increasing lexicographic order of their
 * characters (for UTF-8, the same as the order of their bytes).
 */
module Sorting {

  /** `a` sorts before or with `b`: a proper prefix comes first, else the first differing character decides. */
  predicate StrLe(a: string, b: string)
    decreases |a|
  {
    if a == [] then true
    else if b == [] then false
    else if a[0] != b[0] then a[0] < b[0]
    else StrLe(a[1..], b[1..])
  }

  lemma {:induction false} StrLeTotal(a: string, b: string)
    ensures StrLe(a, b) || StrLe(b, a)
    decreases |a|
  {
    if a != [] && b != [] && a[0] == b[0] {
      StrLeTotal(a[1..], b[1..]);
    }
  }

  lemma {:induction false} StrLeAntisymmetric(a: string, b: string)
    requires StrLe(a, b) && StrLe(b, a)
    ensures a == b
    decreases |a|
  {
    if a != [] && b != [] {
      StrLeAntisymmetric(a[1..], b[1..]);
      assert a == [a[0]] + a[1..] && b == [b[0]] + b[1..];
    }
  }

  lemma {:induction false} StrLeTransitive(a: string, b: string, c: string)
    requires StrLe(a, b) && StrLe(b, c)
    ensures StrLe(a, c)
    decreases |a|
  {
    if a != [] && b != [] && c != [] && a[0] == b[0] == c[0] {
      StrLeTransitive(a[1..], b[1..], c[1..]);
    }
  }

  /** A common prefix does not change the order of two strings. */
  lemma {:induction false} StrLeCommonPrefix(p: string, a: string, b: string)
    requires StrLe(a, b)
    ensures StrLe(p + a, p + b)
    decreases |p|
  {
    if p != [] {
      StrLeCommonPrefix(p[1..], a, b);
      var pa, pb := p + a, p + b;
      assert pa != [] && pb != [] && pa[0] == p[0] == pb[0];
      assert pa[1..] == p[1..] + a && pb[1..] == p[1..] + b;
      assert StrLe(pa[1..], pb[1..]);
    } else {
      assert p + a == a && p + b == b;
    }
  }

  /** Each string sorts before or with the next. */
  predicate Sorted(s: seq<string>) {
    forall k :: 0 < k < |s| ==> StrLe(s[k - 1], s[k])
  }

  /** In a sorted sequence the first string sorts before or with every other. */
  lemma {:induction false} SortedFirstLeast(s: seq<string>, k: nat)
    requires Sorted(s) && k < |s|
    ensures StrLe(s[0], s[k])
  {
    if k == 0 {
      StrLeReflexive(s[0]);
    } else {
      SortedFirstLeast(s, k - 1);
      StrLeTransitive(s[0], s[k - 1], s[k]);
    }
  }

  lemma {:induction false} StrLeReflexive(a: string)
    ensures StrLe(a, a)
    decreases |a|
  {
    if a != [] {
      StrLeReflexive(a[1..]);
    }
  }

  /**
   * Two sorted sequences with the same elements are the same sequence: the
   * sorted order of a collection of strings does not depend on where the
   * strings came from.
   */
  lemma {:induction false} SortedUnique(s: seq<string>, t: seq<string>)
    requires Sorted(s) && Sorted(t)
    requires multiset(s) == multiset(t)
    ensures s == t
    decreases |s|
  {
    assert |t| == |multiset(t)| == |multiset(s)| == |s|;
    if s != [] {
      SameFirst(s, t);
      SameRest(s, t);
      SortedTail(s);
      SortedTail(t);
      SortedUnique(s[1..], t[1..]);
      assert s == [s[0]] + s[1..] && t == [t[0]] + t[1..];
    }
  }

  /** Two sorted sequences with the same elements start with the same string. */
  lemma SameFirst(s: seq<string>, t: seq<string>)
    requires Sorted(s) && Sorted(t) && s != []
    requires multiset(s) == multiset(t)
    ensures t != [] && s[0] == t[0]
  {
    assert s[0] in multiset(t);
    var j := FindIn(t, s[0]);
    var i := FindIn(s, t[0]);
    SortedFirstLeast(s, i);
    SortedFirstLeast(t, j);
    StrLeAntisymmetric(s[0], t[0]);
  }

  /** Without their equal first strings, the two still hold the same elements. */
  lemma SameRest(s: seq<string>, t: seq<string>)
    requires s != [] && t != [] && s[0] == t[0]
    requires multiset(s) == multiset(t)
    ensures multiset(s[1..]) == multiset(t[1..])
  {
    HeadTail(s);
    HeadTail(t);
    assert multiset(s[1..]) == multiset(s) - multiset{s[0]};
    assert multiset(t[1..]) == multiset(t) - multiset{t[0]};
  }

  /** An index at which `x` occurs in `s`, when it is one of its elements. */
  lemma FindIn(s: seq<string>, x: string) returns (i: nat)
    requires x in multiset(s)
    ensures i < |s| && s[i] == x
  {
    assert x in s;
    i :| 0 <= i < |s| && s[i] == x;
  }

  lemma HeadTail(s: seq<string>)
    requires s != []
    ensures multiset(s) == multiset{s[0]} + multiset(s[1..])
  {
    assert s == [s[0]] + s[1..];
  }

  lemma SortedTail(s: seq<string>)
    requires Sorted(s) && s != []
    ensures Sorted(s[1..])
  {
    forall k | 0 < k < |s| - 1 ensures StrLe(s[1..][k - 1], s[1..][k]) {
      assert s[1..][k - 1] == s[k] && s[1..][k] == s[k + 1];
    }
  }

  /** The adjacent pairs of `s` between `lo` and `hi` are in order. */
  predicate SortedBetween(s: seq<string>, lo: int, hi: int) {
    forall k :: lo < k < hi && 0 < k < |s| ==> StrLe(s[k - 1], s[k])
  }

  /**
   * Insertion of `s[i]` has reached index `j`: the run before `j` and the
   * run from `j` to `i` are sorted, and the neighbours of `j` are in order.
   */
  predicate Inserting(s: seq<string>, i: int, j: int) {
    0 <= j <= i < |s| && SortedBetween(s, 0, j) && SortedBetween(s, j, i + 1) &&
    (0 < j < i ==> StrLe(s[j - 1], s[j + 1]))
  }

  /** sort.Strings: sorts `a` in place by insertion, keeping its elements. */
  method SortStrings(a: array<string>)
    modifies a
    ensures Sorted(a[..])
    ensures multiset(a[..]) == multiset(old(a[..]))
  {
    var i := 0;
    while i < a.Length
      invariant 0 <= i <= a.Length
      invariant SortedBetween(a[..], 0, i)
      invariant multiset(a[..]) == multiset(old(a[..]))
    {
      Insert(a, i);
      i := i + 1;
    }
  }

  /** Moves `a[i]` down into the sorted run `a[..i]`, so that `a[..i + 1]` is sorted. */
  method Insert(a: array<string>, i: int)
    requires 0 <= i < a.Length && SortedBetween(a[..], 0, i)
    modifies a
    ensures SortedBetween(a[..], 0, i + 1)
    ensures multiset(a[..]) == multiset(old(a[..]))
  {
    var j := i;
    while 0 < j && !StrLe(a[j - 1], a[j])
      invariant Inserting(a[..], i, j)
      invariant multiset(a[..]) == multiset(old(a[..]))
    {
      ghost var before := a[..];
      a[j - 1], a[j] := a[j], a[j - 1];
      SwapStep(before, i, j);
      j := j - 1;
    }
    InsertDone(a[..], i, j);
  }

  /** Swapping an out-of-order pair moves the insertion one place down and keeps the elements. */
  lemma SwapStep(s: seq<string>, i: int, j: int)
    requires Inserting(s, i, j) && 0 < j && !StrLe(s[j - 1], s[j])
    ensures Inserting(s[j - 1 := s[j]][j := s[j - 1]], i, j - 1)
    ensures multiset(s[j - 1 := s[j]][j := s[j - 1]]) == multiset(s)
  {
    StrLeTotal(s[j - 1], s[j]);
    var t := s[j - 1 := s[j]][j := s[j - 1]];
    assert SortedBetween(t, 0, j - 1) by {
      forall k | 0 < k < j - 1 ensures StrLe(t[k - 1], t[k]) {
        assert t[k - 1] == s[k - 1] && t[k] == s[k];
      }
    }
    assert SortedBetween(t, j - 1, i + 1) by {
      forall k | j - 1 < k < i + 1 && 0 < k < |t| ensures StrLe(t[k - 1], t[k]) {
        if k > j + 1 {
          assert t[k - 1] == s[k - 1] && t[k] == s[k];
        }
      }
    }
  }

  /** Insertion stops at the first pair in order, or at the front: the run is then sorted. */
  lemma InsertDone(s: seq<string>, i: int, j: int)
    requires Inserting(s, i, j) && (j == 0 || StrLe(s[j - 1], s[j]))
    ensures SortedBetween(s, 0, i + 1)
  {
  }
}
