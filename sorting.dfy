/** `Array.prototype.sort()` without a comparator on a list of strings: the
    strings end up in ascending order of `Text.Before`. */
module Sorting {
  import opened Text
  import opened Seqs

  /** Ascending: no later element comes before an earlier one. */
  ghost predicate Sorted(s: seq<string>) {
    forall i, j :: 0 <= i < j < |s| ==> !Before(s[j], s[i])
  }

  /** Strictly ascending. */
  ghost predicate StrictlySorted(s: seq<string>) {
    forall i, j :: 0 <= i < j < |s| ==> Before(s[i], s[j])
  }

  /** Place `x` in front of the first element it does not follow. */
  function Insert(x: string, s: seq<string>): (r: seq<string>)
    ensures multiset(r) == multiset(s) + multiset{x}
  {
    if s == [] then [x]
    else if !Before(s[0], x) then [x] + s
    else
      assert s == [s[0]] + s[1..];
      [s[0]] + Insert(x, s[1..])
  }

  /** `x` is no later than any element of `s`. */
  ghost predicate LowerBound(x: string, s: seq<string>) {
    forall k :: 0 <= k < |s| ==> !Before(s[k], x)
  }

  lemma SortedCons(x: string, s: seq<string>)
    requires LowerBound(x, s) && Sorted(s)
    ensures Sorted([x] + s)
  {
    var r := [x] + s;
    forall i, j | 0 <= i < j < |r| ensures !Before(r[j], r[i]) {
      if i == 0 {
        assert r[j] == s[j - 1];
      } else {
        assert r[i] == s[i - 1] && r[j] == s[j - 1];
      }
    }
  }

  lemma SortedHeadBound(s: seq<string>)
    requires s != [] && Sorted(s)
    ensures LowerBound(s[0], s[1..]) && Sorted(s[1..])
  {
    forall k | 0 <= k < |s[1..]| ensures !Before(s[1..][k], s[0]) {
      assert s[1..][k] == s[k + 1];
    }
  }

  lemma {:induction false} InsertSorted(x: string, s: seq<string>)
    requires Sorted(s)
    ensures Sorted(Insert(x, s))
  {
    if s == [] {
    } else if !Before(s[0], x) {
      forall k | 0 <= k < |s| ensures !Before(s[k], x) {
        if k == 0 { } else { AtMostTransitive(x, s[0], s[k]); }
      }
      SortedCons(x, s);
    } else {
      var tail := s[1..];
      SortedHeadBound(s);
      InsertSorted(x, tail);
      var ins := Insert(x, tail);
      forall k | 0 <= k < |ins| ensures !Before(ins[k], s[0]) {
        var y := ins[k];
        assert y in multiset(ins);
        if y == x {
          BeforeAsymmetric(s[0], x);
        } else {
          assert y in multiset(tail);
          var m :| 0 <= m < |tail| && tail[m] == y;
        }
      }
      SortedCons(s[0], ins);
    }
  }

  /** Insertion sort. */
  function Sort(s: seq<string>): (r: seq<string>)
    ensures multiset(r) == multiset(s)
  {
    if s == [] then []
    else
      assert s == [s[0]] + s[1..];
      Insert(s[0], Sort(s[1..]))
  }

  /** The result of `Sort` is ascending and a permutation of its input. */
  lemma {:induction false} SortSorted(s: seq<string>)
    ensures Sorted(Sort(s)) && multiset(Sort(s)) == multiset(s)
  {
    if s != [] {
      SortSorted(s[1..]);
      InsertSorted(s[0], Sort(s[1..]));
    }
  }

  /** Two ascending lists with the same elements are the same list, so any
      correct sort of the same strings gives what `Sort` gives. */
  lemma {:induction false} SortedUnique(a: seq<string>, b: seq<string>)
    requires Sorted(a) && Sorted(b) && multiset(a) == multiset(b)
    ensures a == b
    decreases |a|
  {
    assert |a| == |multiset(a)| == |multiset(b)| == |b|;
    if a != [] {
      SameHead(a, b);
      SortedHeadBound(a);
      SortedHeadBound(b);
      assert a == [a[0]] + a[1..] && b == [b[0]] + b[1..];
      calc {
        multiset(a[1..]);
        multiset(a) - multiset{a[0]};
        multiset(b) - multiset{b[0]};
        multiset(b[1..]);
      }
      SortedUnique(a[1..], b[1..]);
    }
  }

  /** Two ascending non-empty lists with the same elements start alike. */
  lemma SameHead(a: seq<string>, b: seq<string>)
    requires a != [] && b != [] && Sorted(a) && Sorted(b) && multiset(a) == multiset(b)
    ensures a[0] == b[0]
  {
    assert a[0] in multiset(b);
    assert b[0] in multiset(a);
    var i :| 0 <= i < |b| && b[i] == a[0];
    var j :| 0 <= j < |a| && a[j] == b[0];
    assert !Before(b[i], b[0]) by { if i == 0 { BeforeIrreflexive(b[0]); } }
    assert !Before(a[j], a[0]) by { if j == 0 { BeforeIrreflexive(a[0]); } }
    BeforeTotal(a[0], b[0]);
  }

  /** A list without duplicates has each element at most once. */
  lemma {:induction false} DistinctMultiplicity<T>(s: seq<T>)
    ensures Distinct(s) <==> forall x :: multiset(s)[x] <= 1
  {
    if s != [] {
      var t := s[1..];
      DistinctMultiplicity(t);
      assert s == [s[0]] + t;
      if Distinct(s) {
        assert Distinct(t) by {
          forall i, j | 0 <= i < j < |t| ensures t[i] != t[j] {
            assert t[i] == s[i + 1] && t[j] == s[j + 1];
          }
        }
        assert s[0] !in t;
      }
      if forall x :: multiset(s)[x] <= 1 {
        assert forall x :: multiset(t)[x] <= multiset(s)[x];
        assert multiset(t)[s[0]] == 0;
        forall i, j | 0 <= i < j < |s| ensures s[i] != s[j] {
          if i == 0 {
            assert s[j] == t[j - 1];
          } else {
            assert s[i] == t[i - 1] && s[j] == t[j - 1];
          }
        }
      }
    }
  }

  /** Sorting keeps a list free of duplicates. */
  lemma SortDistinct(s: seq<string>)
    requires Distinct(s)
    ensures Distinct(Sort(s))
  {
    DistinctMultiplicity(s);
    DistinctMultiplicity(Sort(s));
  }

  /** Ascending without duplicates is strictly ascending. */
  lemma SortedDistinctStrict(s: seq<string>)
    requires Sorted(s) && Distinct(s)
    ensures StrictlySorted(s)
  {
    forall i, j | 0 <= i < j < |s| ensures Before(s[i], s[j]) {
      BeforeTotal(s[i], s[j]);
    }
  }

  /** Dropping elements keeps a list ascending. */
  lemma {:induction false} SubsequenceSorted(a: seq<string>, b: seq<string>)
    requires IsSubsequence(a, b) && Sorted(b)
    ensures Sorted(a)
    decreases |b|
  {
    if a != [] {
      assert b != [];
      assert Sorted(b[1..]);
      if a[0] == b[0] && IsSubsequence(a[1..], b[1..]) {
        SubsequenceSorted(a[1..], b[1..]);
        SubsequenceMembers(a[1..], b[1..]);
        forall i, j | 0 <= i < j < |a| ensures !Before(a[j], a[i]) {
          if i == 0 {
            assert a[j] == a[1..][j - 1];
            assert a[j] in b[1..];
            var k :| 0 <= k < |b[1..]| && b[1..][k] == a[j];
            assert b[k + 1] == a[j];
          } else {
            assert a[i] == a[1..][i - 1] && a[j] == a[1..][j - 1];
          }
        }
      } else {
        SubsequenceSorted(a, b[1..]);
      }
    }
  }

  lemma {:induction false} SubsequenceMembers<T>(a: seq<T>, b: seq<T>)
    requires IsSubsequence(a, b)
    ensures forall x :: x in a ==> x in b
    decreases |b|
  {
    if a != [] {
      if a[0] == b[0] && IsSubsequence(a[1..], b[1..]) {
        SubsequenceMembers(a[1..], b[1..]);
        assert a == [a[0]] + a[1..] && b == [b[0]] + b[1..];
      } else {
        SubsequenceMembers(a, b[1..]);
        assert b == [b[0]] + b[1..];
      }
    }
  }
}
