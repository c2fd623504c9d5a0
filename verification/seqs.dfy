/** Facts about sequences of identifiers: duplicates, elements, subsequences. */
module Seqs {

  /** No element occurs twice. */
  predicate NoDup<T(==)>(s: seq<T>)
  {
    forall i, j :: 0 <= i < j < |s| ==> s[i] != s[j]
  }

  /** The elements of a sequence, as a set. */
  function Elems<T>(s: seq<T>): (xs: set<T>)
  {
    set x | x in s
  }

  /** `s` lists every element of `xs` exactly once, in some order. */
  predicate IsEnumeration<T(==)>(s: seq<T>, xs: set<T>)
  {
    NoDup(s) && Elems(s) == xs
  }

  /** The elements of `s` whose position is marked in `mask`, in their order in `s`. */
  function Select<T>(s: seq<T>, mask: seq<bool>): (picked: seq<T>)
    requires |mask| == |s|
  {
    if s == [] then []
    else Select(s[..|s| - 1], mask[..|s| - 1]) + (if mask[|s| - 1] then [s[|s| - 1]] else [])
  }

  /** `a` is obtained from `b` by dropping elements, without reordering the rest. */
  ghost predicate IsSubsequence<T>(a: seq<T>, b: seq<T>)
  {
    exists mask: seq<bool> :: |mask| == |b| && Select(b, mask) == a
  }

  /** `s` with every occurrence of `x` removed. */
  function Without<T(==)>(s: seq<T>, x: T): (r: seq<T>)
    ensures x !in r
    ensures forall i :: 0 <= i < |r| ==> r[i] in s
    ensures forall i :: 0 <= i < |s| && s[i] != x ==> s[i] in r
  {
    if s == [] then []
    else Without(s[..|s| - 1], x) + (if s[|s| - 1] == x then [] else [s[|s| - 1]])
  }

  lemma WithoutAppend<T>(s: seq<T>, x: T, y: T)
    ensures Without(s + [y], x) == Without(s, x) + (if y == x then [] else [y])
  {
  }

  lemma ElemsEmpty<T>(s: seq<T>)
    ensures Elems(s) == {} <==> s == []
  {
    if s != [] {
      assert s[0] in Elems(s);
    }
  }

  /** A duplicate-free sequence is as long as its set of elements is large. */
  lemma {:induction false} NoDupCard<T>(s: seq<T>)
    requires NoDup(s)
    ensures |Elems(s)| == |s|
  {
    if s != [] {
      var init, last := s[..|s| - 1], s[|s| - 1];
      assert s == init + [last];
      NoDupCard(init);
      assert Elems(s) == Elems(init) + {last};
      assert last !in Elems(init);
    }
  }

  lemma SubsequenceOfEmpty<T>()
    ensures IsSubsequence<T>([], [])
  {
  }

  /** Appending one element to `b` keeps `a` a subsequence, whether or not `a` takes it too. */
  lemma SubsequenceExtend<T>(a: seq<T>, b: seq<T>, x: T, keep: bool)
    requires IsSubsequence(a, b)
    ensures IsSubsequence(if keep then a + [x] else a, b + [x])
  {
    var mask :| |mask| == |b| && Select(b, mask) == a;
    SelectAppend(b, mask, x, keep);
  }

  lemma SelectAppend<T>(b: seq<T>, mask: seq<bool>, x: T, keep: bool)
    requires |mask| == |b|
    ensures Select(b + [x], mask + [keep]) == Select(b, mask) + (if keep then [x] else [])
  {
  }

  /** Appending an element that is not yet present keeps a sequence duplicate-free. */
  lemma NoDupAppend<T>(s: seq<T>, x: T)
    requires NoDup(s) && x !in s
    ensures NoDup(s + [x])
  {
  }

  lemma {:induction false} WithoutAbsent<T>(s: seq<T>, x: T)
    requires x !in s
    ensures Without(s, x) == s
  {
    if s != [] {
      WithoutAbsent(s[..|s| - 1], x);
      assert s == s[..|s| - 1] + [s[|s| - 1]];
    }
  }

  /** Removing an element that occurs once shortens a sequence by exactly one. */
  lemma {:induction false} WithoutLength<T>(s: seq<T>, x: T)
    requires NoDup(s) && x in s
    ensures |Without(s, x)| == |s| - 1
  {
    var init, last := s[..|s| - 1], s[|s| - 1];
    assert s == init + [last];
    if last == x {
      WithoutAbsent(init, x);
    } else {
      WithoutLength(init, x);
    }
  }

  /** In a duplicate-free sequence, a present element occurs exactly once. */
  lemma {:induction false} NoDupCount<T>(s: seq<T>, x: T)
    requires NoDup(s) && x in s
    ensures multiset(s)[x] == 1
  {
    var init, last := s[..|s| - 1], s[|s| - 1];
    assert s == init + [last];
    if last == x {
      assert x !in init;
    } else {
      NoDupCount(init, x);
    }
  }
}
