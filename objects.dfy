/**
 * Property order of a plain JavaScript object used as a dictionary of items
 * keyed by `dvar_torah_id`: `Object.values` lists the properties whose key is
 * an array index first, in ascending numeric order, and then all other
 * properties in the order in which they were created.
 */
module Objects {
  import opened Strings
  import opened Snapshot

  /** An array index: the canonical decimal form of an integer below 2^32 - 1. */
  predicate IsArrayIndex(key: string) {
    IsCanonicalDecimal(key) && DecimalValue(key) < 0xFFFF_FFFF
  }

  /** Numeric value of an array-index key; -1 for every other key. */
  function KeyRank(it: Item): int {
    if IsArrayIndex(it.id) then DecimalValue(it.id) else -1
  }

  /** The items whose key is an array index, in insertion order. */
  function IndexKeyed(items: seq<Item>): (r: seq<Item>)
    ensures forall i :: 0 <= i < |r| ==> IsArrayIndex(r[i].id)
  {
    if items == [] then []
    else (if IsArrayIndex(items[0].id) then [items[0]] else []) + IndexKeyed(items[1..])
  }

  /** The items whose key is not an array index, in insertion order. */
  function NamedKeyed(items: seq<Item>): (r: seq<Item>)
    ensures forall i :: 0 <= i < |r| ==> !IsArrayIndex(r[i].id)
  {
    if items == [] then []
    else (if IsArrayIndex(items[0].id) then [] else [items[0]]) + NamedKeyed(items[1..])
  }

  predicate AscendingRank(s: seq<Item>) {
    forall i, j :: 0 <= i < j < |s| ==> KeyRank(s[i]) <= KeyRank(s[j])
  }

  function InsertByRank(x: Item, s: seq<Item>): (r: seq<Item>)
    requires AscendingRank(s)
    ensures AscendingRank(r) && multiset(r) == multiset(s) + multiset{x}
  {
    if s == [] then [x]
    else if KeyRank(s[0]) < KeyRank(x) then
      var t := InsertByRank(x, s[1..]);
      assert s == [s[0]] + s[1..];
      RankLowerBound(KeyRank(s[0]), x, s[1..], t);
      [s[0]] + t
    else [x] + s
  }

  /** A lower bound of x and of every element of s bounds every element of a permutation of both. */
  lemma RankLowerBound(b: int, x: Item, s: seq<Item>, t: seq<Item>)
    requires multiset(t) == multiset(s) + multiset{x}
    requires b <= KeyRank(x) && forall i :: 0 <= i < |s| ==> b <= KeyRank(s[i])
    ensures forall j :: 0 <= j < |t| ==> b <= KeyRank(t[j])
  {
    forall j | 0 <= j < |t| ensures b <= KeyRank(t[j]) {
      assert t[j] in multiset(t);
      assert t[j] == x || t[j] in s;
    }
  }

  function SortByRank(s: seq<Item>): (r: seq<Item>)
    ensures AscendingRank(r) && multiset(r) == multiset(s)
  {
    if s == [] then []
    else
      assert s == [s[0]] + s[1..];
      InsertByRank(s[0], SortByRank(s[1..]))
  }

  /** `Object.values(dictionary)` for a dictionary whose entries were created in the order of `items`. */
  function ObjectValues(items: seq<Item>): seq<Item> {
    SortByRank(IndexKeyed(items)) + NamedKeyed(items)
  }

  lemma {:induction false} SplitPermutation(items: seq<Item>)
    ensures multiset(IndexKeyed(items)) + multiset(NamedKeyed(items)) == multiset(items)
  {
    if items != [] {
      SplitPermutation(items[1..]);
      assert items == [items[0]] + items[1..];
    }
  }

  /**
   * The emitted item list holds every item of the dictionary exactly as often
   * as the dictionary does; array-index keys come first in ascending numeric
   * order, then the other keys in creation order.
   */
  lemma ObjectValuesOrder(items: seq<Item>)
    ensures multiset(ObjectValues(items)) == multiset(items)
    ensures var n := |IndexKeyed(items)|;
      && n <= |ObjectValues(items)|
      && (forall i :: 0 <= i < n ==> IsArrayIndex(ObjectValues(items)[i].id))
      && (forall i, j :: 0 <= i < j < n ==>
            DecimalValue(ObjectValues(items)[i].id) <= DecimalValue(ObjectValues(items)[j].id))
      && ObjectValues(items)[n..] == NamedKeyed(items)
  {
    SplitPermutation(items);
    var r := ObjectValues(items);
    var sorted := SortByRank(IndexKeyed(items));
    var n := |IndexKeyed(items)|;
    assert |sorted| == n by {
      assert |multiset(sorted)| == |multiset(IndexKeyed(items))|;
    }
    forall i | 0 <= i < n ensures IsArrayIndex(r[i].id) {
      assert r[i] == sorted[i];
      assert sorted[i] in multiset(IndexKeyed(items));
    }
    assert r[n..] == NamedKeyed(items);
  }

  /** With no numeric keys, `Object.values` keeps creation order. */
  lemma ObjectValuesNamedKeys(items: seq<Item>)
    requires forall i :: 0 <= i < |items| ==> !IsArrayIndex(items[i].id)
    ensures ObjectValues(items) == items
  {
    NoIndexKeys(items);
  }

  lemma {:induction false} NoIndexKeys(items: seq<Item>)
    requires forall i :: 0 <= i < |items| ==> !IsArrayIndex(items[i].id)
    ensures IndexKeyed(items) == [] && NamedKeyed(items) == items
  {
    if items != [] {
      NoIndexKeys(items[1..]);
      assert items == [items[0]] + items[1..];
    }
  }
}
