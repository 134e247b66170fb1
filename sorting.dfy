/**
 * `Array.prototype.sort()` without a comparator, as the ingestion script applies
 * it to the key lists it writes: strings ordered by UTF-16 code units.
 */
module Sorting {
  import opened Strings

  predicate NoDup<T(==)>(s: seq<T>) {
    forall i, j :: 0 <= i < j < |s| ==> s[i] != s[j]
  }

  function Elems<T>(s: seq<T>): set<T> {
    set x | x in s
  }

  /** Ascending, equal neighbours allowed. */
  predicate Sorted(s: seq<string>) {
    forall i, j :: 0 <= i < j < |s| ==> !StrLess(s[j], s[i])
  }

  /** Ascending with no two equal entries. */
  predicate StrictlySorted(s: seq<string>) {
    forall i, j :: 0 <= i < j < |s| ==> StrLess(s[i], s[j])
  }

  /** Inserts x before the first entry of a sorted list that is not smaller than x. */
  function Insert(x: string, s: seq<string>): (r: seq<string>)
    requires Sorted(s)
    ensures Sorted(r) && multiset(r) == multiset(s) + multiset{x}
  {
    if s == [] then [x]
    else if StrLess(s[0], x) then
      var r := [s[0]] + Insert(x, s[1..]);
      assert s == [s[0]] + s[1..];
      forall j | 0 < j < |r| ensures !StrLess(r[j], r[0]) {
        assert r[j] in multiset(Insert(x, s[1..]));
        if r[j] == x {
          StrLessAsymmetric(s[0], x);
        } else {
          assert r[j] in s[1..];
        }
      }
      r
    else
      var r := [x] + s;
      forall j | 0 < j < |r| ensures !StrLess(r[j], r[0]) {
        if j > 1 { NotLessTransitive(x, s[0], r[j]); }
      }
      r
  }

  /** The sorted permutation of a list of strings. */
  function SortStrings(s: seq<string>): (r: seq<string>)
    ensures Sorted(r) && multiset(r) == multiset(s)
  {
    if s == [] then []
    else
      assert s == [s[0]] + s[1..];
      Insert(s[0], SortStrings(s[1..]))
  }

  lemma {:induction false} NoDupCount<T>(s: seq<T>, x: T)
    requires NoDup(s)
    ensures multiset(s)[x] <= 1
  {
    if s != [] {
      assert s == [s[0]] + s[1..];
      NoDupCount(s[1..], x);
      assert s[0] !in s[1..];
    }
  }

  lemma DupCount<T>(s: seq<T>, i: nat, j: nat)
    requires i < j < |s|
    ensures s[i] == s[j] ==> multiset(s)[s[i]] >= 2
  {
    assert s == s[..j] + s[j..];
    assert s[i] in s[..j];
    assert s[j..][0] == s[j];
  }

  /** A permutation of a duplicate-free list is duplicate-free. */
  lemma NoDupPermutation<T>(s: seq<T>, r: seq<T>)
    requires NoDup(s) && multiset(r) == multiset(s)
    ensures NoDup(r)
  {
    forall i, j | 0 <= i < j < |r| ensures r[i] != r[j] {
      DupCount(r, i, j);
      NoDupCount(s, r[i]);
    }
  }

  /**
   * Sorting the entries of a JavaScript Set (which never holds two equal
   * strings) gives a strictly ascending list of exactly those entries.
   */
  lemma SortedKeyListing(keys: seq<string>)
    requires NoDup(keys)
    ensures StrictlySorted(SortStrings(keys))
    ensures Elems(SortStrings(keys)) == Elems(keys)
  {
    var r := SortStrings(keys);
    NoDupPermutation(keys, r);
    forall i, j | 0 <= i < j < |r| ensures StrLess(r[i], r[j]) {
      StrLessTotal(r[i], r[j]);
    }
    forall x ensures x in r <==> x in keys {
      assert x in multiset(r) <==> x in multiset(keys);
    }
  }

  /** A strictly ascending list has no repeats and is ascending. */
  lemma StrictlySortedIsSorted(s: seq<string>)
    requires StrictlySorted(s)
    ensures NoDup(s) && Sorted(s)
  {
    forall i, j | 0 <= i < j < |s| ensures s[i] != s[j] && !StrLess(s[j], s[i]) {
      StrLessIrreflexive(s[i]);
      StrLessAsymmetric(s[i], s[j]);
    }
  }

  lemma ElemsEmpty<T>(s: seq<T>)
    ensures Elems(s) == {} <==> s == []
  {
    if s != [] {
      assert s[0] in Elems(s);
    }
  }

  lemma StrictMinimum(a: seq<string>, x: string)
    requires StrictlySorted(a) && x in a
    ensures x == a[0] || StrLess(a[0], x)
  {
  }

  /** A strictly ascending list is determined by its set of entries. */
  lemma {:induction false} StrictlySortedUnique(a: seq<string>, b: seq<string>)
    requires StrictlySorted(a) && StrictlySorted(b) && Elems(a) == Elems(b)
    ensures a == b
  {
    if a == [] || b == [] {
      ElemsEmpty(a);
      ElemsEmpty(b);
    } else {
      assert a[0] in Elems(b) && b[0] in Elems(a);
      StrictMinimum(a, b[0]);
      StrictMinimum(b, a[0]);
      StrLessAntisymmetric(a[0], b[0]);
      forall x ensures x in a[1..] <==> x in b[1..] {
        if x in a[1..] || x in b[1..] {
          assert x in Elems(a) && x in Elems(b);
          StrictMinimum(a, x);
          StrLessIrreflexive(x);
          assert a == [a[0]] + a[1..] && b == [b[0]] + b[1..];
        }
      }
      StrictlySortedUnique(a[1..], b[1..]);
      assert a == [a[0]] + a[1..] && b == [b[0]] + b[1..];
    }
  }

  /**
   * The listing written for a Set does not depend on the order in which its
   * keys were first added.
   */
  lemma SortedListingIndependentOfOrder(a: seq<string>, b: seq<string>)
    requires NoDup(a) && NoDup(b) && Elems(a) == Elems(b)
    ensures SortStrings(a) == SortStrings(b)
  {
    SortedKeyListing(a);
    SortedKeyListing(b);
    StrictlySortedUnique(SortStrings(a), SortStrings(b));
  }
}
