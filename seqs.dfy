/** Generic sequence notions used to state what the catalog page computes:
    order-preserving subsequences, duplicate-free lists, first occurrences,
    JavaScript's `[...new Set(xs)]` and the default `sort()` on strings. */
module Seqs {
  import opened Text

  /** `a` is obtained from `b` by deleting elements, keeping the rest in order. */
  predicate IsSubseq<T(==)>(a: seq<T>, b: seq<T>)
    decreases |b|
  {
    |a| == 0 ||
    (|b| > 0 && ((a[0] == b[0] && IsSubseq(a[1..], b[1..])) || IsSubseq(a, b[1..])))
  }

  /** A subsequence never repeats an element more often than the original holds it. */
  lemma {:induction false} SubseqMultiset<T>(a: seq<T>, b: seq<T>)
    requires IsSubseq(a, b)
    ensures multiset(a) <= multiset(b)
    decreases |b|
  {
    if |a| > 0 {
      assert b == [b[0]] + b[1..];
      if a[0] == b[0] && IsSubseq(a[1..], b[1..]) {
        SubseqMultiset(a[1..], b[1..]);
        assert a == [a[0]] + a[1..];
      } else {
        SubseqMultiset(a, b[1..]);
      }
    }
  }

  /** Deleting an extra element in front keeps a subsequence a subsequence. */
  lemma {:induction false} SubseqCons<T>(a: seq<T>, b: seq<T>, x: T)
    requires IsSubseq(a, b)
    ensures IsSubseq(a, [x] + b)
  {
    assert ([x] + b)[1..] == b;
  }

  /** Deleting elements is transitive. */
  lemma {:induction false} SubseqTransitive<T>(a: seq<T>, b: seq<T>, c: seq<T>)
    requires IsSubseq(a, b) && IsSubseq(b, c)
    ensures IsSubseq(a, c)
    decreases |c|
  {
    if |a| > 0 {
      if b[0] == c[0] && IsSubseq(b[1..], c[1..]) {
        if a[0] == b[0] && IsSubseq(a[1..], b[1..]) {
          SubseqTransitive(a[1..], b[1..], c[1..]);
        } else {
          SubseqTransitive(a, b[1..], c[1..]);
        }
      } else {
        SubseqTransitive(a, b, c[1..]);
      }
    }
  }

  /** No element occurs twice. */
  predicate Distinct<T(==)>(s: seq<T>)
  {
    forall i, j :: 0 <= i < j < |s| ==> s[i] != s[j]
  }

  /** A duplicate-free list drawn from a set is no longer than the set is large. */
  lemma {:induction false} DistinctWithin<T>(r: seq<T>, s: set<T>)
    requires Distinct(r) && forall x :: x in r ==> x in s
    ensures |r| <= |s|
    decreases |r|
  {
    if r != [] {
      assert forall k :: 0 <= k < |r[1..]| ==> r[1..][k] == r[k + 1];
      DistinctWithin(r[1..], s - {r[0]});
    }
  }

  /** The position of the first occurrence of x in s. */
  function IndexOf<T(==)>(s: seq<T>, x: T): (i: nat)
    requires x in s
    ensures i < |s| && s[i] == x && x !in s[..i]
  {
    if s[0] == x then 0 else 1 + IndexOf(s[1..], x)
  }

  /** A position holding x with no x before it is the first occurrence. */
  lemma {:induction false} IndexOfUnique<T>(s: seq<T>, x: T, i: nat)
    requires i < |s| && s[i] == x && x !in s[..i]
    ensures IndexOf(s, x) == i
  {
  }

  /** Appending an element does not move the first occurrence of anything already there. */
  lemma {:induction false} IndexOfAppend<T>(s: seq<T>, y: T, x: T)
    requires x in s
    ensures IndexOf(s + [y], x) == IndexOf(s, x)
  {
    var i := IndexOf(s, x);
    assert (s + [y])[..i] == s[..i];
    IndexOfUnique(s + [y], x, i);
  }

  /** The elements of r are elements of src, listed in the order of their first occurrence in src. */
  ghost predicate InFirstSeenOrder<T>(r: seq<T>, src: seq<T>)
  {
    (forall k :: 0 <= k < |r| ==> r[k] in src) &&
    (forall i, j :: 0 <= i < j < |r| ==> IndexOf(src, r[i]) < IndexOf(src, r[j]))
  }

  /** `[...new Set(s)]`: each distinct element once, in insertion order. */
  function Dedup<T(==,!new)>(s: seq<T>): (r: seq<T>)
    ensures Distinct(r)
    ensures forall x :: x in r <==> x in s
    decreases |s|
  {
    if |s| == 0 then []
    else
      var r := Dedup(s[..|s| - 1]);
      assert s == s[..|s| - 1] + [s[|s| - 1]];
      if s[|s| - 1] in r then r else r + [s[|s| - 1]]
  }

  /** A `Set` iterates its elements in the order they were first inserted. */
  lemma {:induction false} DedupFirstSeen<T(!new)>(s: seq<T>)
    ensures InFirstSeenOrder(Dedup(s), s)
    decreases |s|
  {
    if |s| > 0 {
      var init, last := s[..|s| - 1], s[|s| - 1];
      assert s == init + [last];
      var r0 := Dedup(init);
      DedupFirstSeen(init);
      forall x | x in init
        ensures IndexOf(s, x) == IndexOf(init, x)
      {
        IndexOfAppend(init, last, x);
      }
      if last !in r0 {
        assert last !in init;
        IndexOfUnique(s, last, |s| - 1);
        var r := Dedup(s);
        assert r == r0 + [last];
        forall i, j | 0 <= i < j < |r|
          ensures IndexOf(s, r[i]) < IndexOf(s, r[j])
        {
          if j == |r0| {
            assert r[i] in init;
          }
        }
      }
    }
  }

  /** Two lists holding the same elements equally often hold the same elements. */
  lemma {:induction false} SameMultisetSameElements<T>(a: seq<T>, b: seq<T>)
    requires multiset(a) == multiset(b)
    ensures forall x :: x in a <==> x in b
  {
    forall x
      ensures x in a <==> x in b
    {
      assert x in a <==> x in multiset(a);
      assert x in b <==> x in multiset(b);
    }
  }

  /** Each element comes no later than any element after it, in the default string order. */
  predicate Sorted(s: seq<string>)
  {
    forall i, j :: 0 <= i < j < |s| ==> LexLe(s[i], s[j])
  }

  /** Places x before the first element it does not exceed. */
  function Insert(x: string, s: seq<string>): (r: seq<string>)
    ensures multiset(r) == multiset(s) + multiset{x}
    decreases |s|
  {
    if s == [] then [x]
    else if LexLe(x, s[0]) then [x] + s
    else
      assert s == [s[0]] + s[1..];
      [s[0]] + Insert(x, s[1..])
  }

  /** Inserting into a sorted list keeps it sorted. */
  lemma {:induction false} InsertSorted(x: string, s: seq<string>)
    requires Sorted(s)
    ensures Sorted(Insert(x, s))
    decreases |s|
  {
    if s != [] {
      if LexLe(x, s[0]) {
        forall j | 0 < j < |s|
          ensures LexLe(x, s[j])
        {
          LexLeTransitive(x, s[0], s[j]);
        }
      } else {
        LexLeTotal(x, s[0]);
        var t := Insert(x, s[1..]);
        InsertSorted(x, s[1..]);
        forall y | y in t
          ensures LexLe(s[0], y)
        {
          assert y in multiset(t);
          if y != x {
            assert y in multiset(s[1..]);
            var k :| 0 <= k < |s[1..]| && s[1..][k] == y;
            assert s[k + 1] == y;
          }
        }
        var r := [s[0]] + t;
        forall i, j | 0 <= i < j < |r|
          ensures LexLe(r[i], r[j])
        {
          if i == 0 {
            assert r[j] == t[j - 1];
          } else {
            assert r[i] == t[i - 1] && r[j] == t[j - 1];
          }
        }
      }
    }
  }

  /** Inserting a new element into a duplicate-free list keeps it duplicate-free. */
  lemma {:induction false} InsertDistinct(x: string, s: seq<string>)
    requires Distinct(s) && x !in s
    ensures Distinct(Insert(x, s))
    decreases |s|
  {
    if s != [] && !LexLe(x, s[0]) {
      var t := Insert(x, s[1..]);
      InsertDistinct(x, s[1..]);
      assert s[0] !in s[1..];
      assert s[0] !in multiset(t);
    }
  }

  /** Array.prototype.sort() on strings, as an insertion sort. */
  function Sort(s: seq<string>): (r: seq<string>)
    ensures Sorted(r)
    ensures multiset(r) == multiset(s)
    decreases |s|
  {
    if s == [] then []
    else
      assert s == [s[0]] + s[1..];
      InsertSorted(s[0], Sort(s[1..]));
      Insert(s[0], Sort(s[1..]))
  }

  /** Sorting a duplicate-free list yields a duplicate-free list. */
  lemma {:induction false} SortDistinct(s: seq<string>)
    requires Distinct(s)
    ensures Distinct(Sort(s))
    decreases |s|
  {
    if s != [] {
      var t := Sort(s[1..]);
      SortDistinct(s[1..]);
      assert s[0] !in s[1..];
      assert s[0] !in multiset(t);
      InsertDistinct(s[0], t);
    }
  }
}
