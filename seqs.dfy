/**
 * Sequence operations behind the components' `Array.prototype.filter` calls
 * and `[...new Set(xs)]`, with the facts that characterise them.
 */
module Seqs {

  /** `r` is `s` with some elements left out, in the same order. */
  ghost predicate IsSubsequence<T>(r: seq<T>, s: seq<T>)
    decreases |s|
  {
    if r == [] then true
    else if s == [] then false
    else (r[|r| - 1] == s[|s| - 1] && IsSubsequence(r[..|r| - 1], s[..|s| - 1]))
         || IsSubsequence(r, s[..|s| - 1])
  }

  /** The elements of a subsequence are elements of the sequence. */
  lemma {:induction false} SubsequenceMembers<T>(r: seq<T>, s: seq<T>, x: T)
    requires IsSubsequence(r, s) && x in r
    ensures x in s
    decreases |s|
  {
    var init := s[..|s| - 1];
    if r[|r| - 1] == s[|s| - 1] && IsSubsequence(r[..|r| - 1], init) {
      if x != r[|r| - 1] {
        assert r == r[..|r| - 1] + [r[|r| - 1]];
        SubsequenceMembers(r[..|r| - 1], init, x);
      }
    } else {
      SubsequenceMembers(r, init, x);
    }
  }

  /** A subsequence of a sequence without duplicates has none either. */
  lemma {:induction false} SubsequenceKeepsNoDuplicates<T>(r: seq<T>, s: seq<T>)
    requires IsSubsequence(r, s) && NoDuplicates(s)
    ensures NoDuplicates(r)
    decreases |s|
  {
    if r != [] {
      var init := s[..|s| - 1];
      if r[|r| - 1] == s[|s| - 1] && IsSubsequence(r[..|r| - 1], init) {
        var front := r[..|r| - 1];
        SubsequenceKeepsNoDuplicates(front, init);
        forall i | 0 <= i < |front| ensures front[i] != r[|r| - 1] {
          SubsequenceMembers(front, init, front[i]);
        }
      } else {
        SubsequenceKeepsNoDuplicates(r, init);
      }
    }
  }

  /** No element occurs twice. */
  ghost predicate NoDuplicates<T>(s: seq<T>) {
    forall i, j | 0 <= i < j < |s| :: s[i] != s[j]
  }

  /** In a sequence without duplicates every element occurs once. */
  lemma {:induction false} NoDuplicatesCountsOnce<T>(s: seq<T>, x: T)
    requires NoDuplicates(s)
    ensures multiset(s)[x] <= 1
  {
    if s != [] {
      var init := s[..|s| - 1];
      assert s == init + [s[|s| - 1]];
      NoDuplicatesCountsOnce(init, x);
      if s[|s| - 1] == x {
        assert x !in init;
      }
    }
  }

  /** Reordering a sequence without duplicates gives one without duplicates. */
  lemma PermutationKeepsNoDuplicates<T>(a: seq<T>, b: seq<T>)
    requires multiset(a) == multiset(b) && NoDuplicates(b)
    ensures NoDuplicates(a)
  {
    forall i, j | 0 <= i < j < |a| ensures a[i] != a[j] {
      var x := a[i];
      NoDuplicatesCountsOnce(b, x);
      assert a == a[..i] + [a[i]] + a[i + 1..j] + [a[j]] + a[j + 1..];
      assert multiset(a)[x] == multiset(a[..i])[x] + 1 + multiset(a[i + 1..j])[x]
        + multiset([a[j]])[x] + multiset(a[j + 1..])[x];
    }
  }

  /**
   * `Array.prototype.filter`: the elements satisfying `p`, visited left to
   * right. The result is an order-preserving subsequence holding every
   * element that satisfies `p` as often as the input does, and nothing else.
   */
  function Filter<T(!new)>(s: seq<T>, p: T -> bool): (r: seq<T>)
    ensures IsSubsequence(r, s)
    ensures forall x {:trigger multiset(r)[x]} :: multiset(r)[x] == if p(x) then multiset(s)[x] else 0
    ensures forall x | x in r :: p(x)
  {
    if s == [] then []
    else
      var init, last := s[..|s| - 1], s[|s| - 1];
      assert s == init + [last];
      var rest := Filter(init, p);
      if p(last) then
        assert (rest + [last])[..|rest|] == rest;
        rest + [last]
      else
        rest
  }

  /** Membership in a filtered sequence. */
  lemma FilterMembership<T(!new)>(s: seq<T>, p: T -> bool, x: T)
    ensures x in Filter(s, p) <==> x in s && p(x)
  {
    assert x in Filter(s, p) <==> x in multiset(Filter(s, p));
    assert x in s <==> x in multiset(s);
  }

  /** Filtering one more element extends the result at its end, if at all. */
  lemma FilterSnoc<T(!new)>(s: seq<T>, x: T, p: T -> bool)
    ensures Filter(s + [x], p) == if p(x) then Filter(s, p) + [x] else Filter(s, p)
  {
    assert (s + [x])[..|s|] == s;
  }

  /** When every element satisfies the predicate, filtering changes nothing. */
  lemma {:induction false} FilterAll<T(!new)>(s: seq<T>, p: T -> bool)
    requires forall i | 0 <= i < |s| :: p(s[i])
    ensures Filter(s, p) == s
  {
    if s != [] {
      FilterAll(s[..|s| - 1], p);
    }
  }

  /** When no element satisfies the predicate, nothing is left. */
  lemma {:induction false} FilterNone<T(!new)>(s: seq<T>, p: T -> bool)
    requires forall i | 0 <= i < |s| :: !p(s[i])
    ensures Filter(s, p) == []
  {
    if s != [] {
      FilterNone(s[..|s| - 1], p);
    }
  }

  /** Two predicates that agree on the elements of `s` filter it alike. */
  lemma {:induction false} FilterAgree<T(!new)>(s: seq<T>, p: T -> bool, q: T -> bool)
    requires forall i | 0 <= i < |s| :: p(s[i]) == q(s[i])
    ensures Filter(s, p) == Filter(s, q)
  {
    if s != [] {
      FilterAgree(s[..|s| - 1], p, q);
    }
  }

  /** The position of the first occurrence of `x` in `s`. */
  function FirstIndex<T(==)>(s: seq<T>, x: T): (r: nat)
    requires x in s
    ensures r < |s| && s[r] == x
    ensures forall j | 0 <= j < r :: s[j] != x
  {
    if s[0] == x then 0 else 1 + FirstIndex(s[1..], x)
  }

  /** Extending a sequence does not move the first occurrence of an element already present. */
  lemma FirstIndexPrefix<T>(s: seq<T>, t: seq<T>, x: T)
    requires x in s
    ensures x in s + t && FirstIndex(s + t, x) == FirstIndex(s, x)
  {
    var a, b := FirstIndex(s, x), FirstIndex(s + t, x);
    assert (s + t)[a] == x;
    assert b <= a;
    assert s[b] == (s + t)[b];
  }

  /**
   * `[...new Set(s)]`: the distinct elements of `s`. A `Set` keeps insertion
   * order and ignores repeated inserts.
   */
  function Distinct<T(==,!new)>(s: seq<T>): (r: seq<T>)
    ensures NoDuplicates(r)
    ensures forall x :: x in r <==> x in s
  {
    if s == [] then []
    else
      var init, last := s[..|s| - 1], s[|s| - 1];
      assert s == init + [last];
      var d := Distinct(init);
      if last in d then d else d + [last]
  }

  /** The distinct elements come in the order of their first occurrence. */
  lemma {:induction false} DistinctInFirstOccurrenceOrder<T(!new)>(s: seq<T>)
    ensures forall i, j | 0 <= i < j < |Distinct(s)| :: FirstIndex(s, Distinct(s)[i]) < FirstIndex(s, Distinct(s)[j])
  {
    if s != [] {
      var init, last := s[..|s| - 1], s[|s| - 1];
      assert s == init + [last];
      DistinctInFirstOccurrenceOrder(init);
      DistinctSnoc(init, last);
      var d, r := Distinct(init), Distinct(s);
      forall i, j | 0 <= i < j < |r|
        ensures FirstIndex(s, r[i]) < FirstIndex(s, r[j])
      {
        assert r[i] == d[i] && r[i] in init;
        FirstIndexPrefix(init, [last], r[i]);
        if j < |d| {
          assert r[j] == d[j] && r[j] in init;
          FirstIndexPrefix(init, [last], r[j]);
        } else {
          assert r[j] == last && last !in init;
          assert FirstIndex(s, last) == |s| - 1;
        }
      }
    }
  }

  /** Every element of `r` is in `s`, and `r` lists them in the order they first occur in `s`. */
  ghost predicate InFirstOccurrenceOrder<T>(r: seq<T>, s: seq<T>) {
    forall i, j | 0 <= i < j < |r| :: r[i] in s && r[j] in s && FirstIndex(s, r[i]) < FirstIndex(s, r[j])
  }

  /** In a sequence without duplicates, `filter` keeps the kept elements in their original order. */
  lemma {:induction false} FilterInFirstOccurrenceOrder<T(!new)>(s: seq<T>, p: T -> bool)
    requires NoDuplicates(s)
    ensures InFirstOccurrenceOrder(Filter(s, p), s)
  {
    if s != [] {
      var init, last := s[..|s| - 1], s[|s| - 1];
      assert s == init + [last];
      FilterInFirstOccurrenceOrder(init, p);
      FilterSnoc(init, last, p);
      var d, r := Filter(init, p), Filter(s, p);
      forall i, j | 0 <= i < j < |r|
        ensures r[i] in s && r[j] in s && FirstIndex(s, r[i]) < FirstIndex(s, r[j])
      {
        assert r[i] == d[i];
        FilterMembership(init, p, d[i]);
        FirstIndexPrefix(init, [last], r[i]);
        if j < |d| {
          assert r[j] == d[j];
          FilterMembership(init, p, d[j]);
          FirstIndexPrefix(init, [last], r[j]);
        } else {
          assert r[j] == last && last !in init;
          assert FirstIndex(s, last) == |s| - 1;
        }
      }
    }
  }

  /** Appending an element the sequence already has leaves its distinct elements alone. */
  lemma DistinctSnoc<T(!new)>(s: seq<T>, x: T)
    ensures Distinct(s + [x]) == if x in s then Distinct(s) else Distinct(s) + [x]
  {
    assert (s + [x])[..|s|] == s;
  }
}
