/**
 * How one response is arranged. The results that carry one section's labels
 * are exactly the results of that section's item file, once each, and the
 * Torah results come in ascending (division, section) order of the listings,
 * the festival results in ascending festival order.
 */
module SearchOrder {
  import opened Wrappers
  import opened Strings
  import opened Sorting
  import opened Snapshot
  import opened SearchRoute
  import opened SearchProperties

  // ---------------------------------------------------------------------------
  // The results of one section
  // ---------------------------------------------------------------------------

  predicate HasLabels(r: SearchResult, category: Category, seder: Option<string>, parsha: string) {
    r.category == category && r.seder == seder && r.parsha == parsha
  }

  /** The results carrying the given labels, in response order. */
  function Labelled(rs: seq<SearchResult>, category: Category, seder: Option<string>, parsha: string)
    : (r: seq<SearchResult>)
    ensures forall x :: x in r <==> x in rs && HasLabels(x, category, seder, parsha)
    decreases |rs|
  {
    if rs == [] then []
    else
      var last := rs[|rs| - 1];
      assert rs == rs[..|rs| - 1] + [last];
      Labelled(rs[..|rs| - 1], category, seder, parsha)
        + (if HasLabels(last, category, seder, parsha) then [last] else [])
  }

  lemma {:induction false} LabelledAppend(
    a: seq<SearchResult>, b: seq<SearchResult>, category: Category, seder: Option<string>, parsha: string)
    ensures Labelled(a + b, category, seder, parsha) == Labelled(a, category, seder, parsha) + Labelled(b, category, seder, parsha)
    decreases |b|
  {
    if b == [] {
      assert a + b == a;
    } else {
      var ab, init, last := a + b, b[..|b| - 1], b[|b| - 1];
      var tail := if HasLabels(last, category, seder, parsha) then [last] else [];
      assert ab[..|ab| - 1] == a + init;
      assert ab[|ab| - 1] == last;
      assert Labelled(ab, category, seder, parsha) == Labelled(a + init, category, seder, parsha) + tail;
      assert Labelled(b, category, seder, parsha) == Labelled(init, category, seder, parsha) + tail;
      LabelledAppend(a, init, category, seder, parsha);
    }
  }

  lemma LabelledNone(rs: seq<SearchResult>, category: Category, seder: Option<string>, parsha: string)
    requires forall r :: r in rs ==> !HasLabels(r, category, seder, parsha)
    ensures Labelled(rs, category, seder, parsha) == []
  {
  }

  lemma {:induction false} LabelledAll(rs: seq<SearchResult>, category: Category, seder: Option<string>, parsha: string)
    requires forall r :: r in rs ==> HasLabels(r, category, seder, parsha)
    ensures Labelled(rs, category, seder, parsha) == rs
    decreases |rs|
  {
    if rs != [] {
      var init := rs[..|rs| - 1];
      assert rs == init + [rs[|rs| - 1]];
      forall r | r in init ensures HasLabels(r, category, seder, parsha) {
        assert r in rs;
      }
      LabelledAll(init, category, seder, parsha);
    }
  }

  /** Of one file's results, those with the file's own labels are all of them; with other labels, none. */
  lemma SectionLabelled(items: seq<Item>, query: string, category: Category, seder: Option<string>, parsha: string,
                        category': Category, seder': Option<string>, parsha': string)
    ensures Labelled(SectionResults(items, query, category, seder, parsha), category', seder', parsha') ==
      if category == category' && seder == seder' && parsha == parsha'
      then SectionResults(items, query, category, seder, parsha) else []
  {
    var rs := SectionResults(items, query, category, seder, parsha);
    SectionResultsSound(items, query, category, seder, parsha);
    if category == category' && seder == seder' && parsha == parsha' {
      LabelledAll(rs, category', seder', parsha');
    } else {
      LabelledNone(rs, category', seder', parsha');
    }
  }

  lemma NoDupPrefix(s: seq<string>)
    requires NoDup(s) && s != []
    ensures NoDup(s[..|s| - 1]) && s[|s| - 1] !in s[..|s| - 1]
  {
  }

  /** Over a section listing without repeats, a section's labels pick out exactly its own file's results. */
  lemma {:induction false} ParshiotLabelled(store: Store, query: string, seder: string, parshiot: seq<string>, s: string, p: string)
    requires NoDup(parshiot)
    ensures Labelled(ParshiotResults(store, query, seder, parshiot), Torah, Some(s), p) ==
      if seder == s && p in parshiot && TorahContentFile(s, p) in store.items
      then SectionResults(store.items[TorahContentFile(s, p)], query, Torah, Some(s), p) else []
    decreases |parshiot|
  {
    if parshiot != [] {
      var init := parshiot[..|parshiot| - 1];
      var last := parshiot[|parshiot| - 1];
      assert parshiot == init + [last];
      NoDupPrefix(parshiot);
      ParshiotLabelled(store, query, seder, init, s, p);
      var file := TorahContentFile(seder, last);
      if file in store.items {
        var section := SectionResults(store.items[file], query, Torah, Some(seder), last);
        LabelledAppend(ParshiotResults(store, query, seder, init), section, Torah, Some(s), p);
        SectionLabelled(store.items[file], query, Torah, Some(seder), last, Torah, Some(s), p);
      }
    }
  }

  /** Over a division listing without repeats, a section's labels pick out the results of its own division only. */
  lemma {:induction false} SedarimLabelled(store: Store, query: string, sedarim: seq<string>, s: string, p: string)
    requires NoDup(sedarim)
    ensures Labelled(SedarimResults(store, query, sedarim), Torah, Some(s), p) ==
      if s in sedarim && ParshiotFile(s) in store.lists
      then Labelled(ParshiotResults(store, query, s, store.lists[ParshiotFile(s)]), Torah, Some(s), p) else []
    decreases |sedarim|
  {
    if sedarim != [] {
      var init := sedarim[..|sedarim| - 1];
      var last := sedarim[|sedarim| - 1];
      assert sedarim == init + [last];
      NoDupPrefix(sedarim);
      SedarimLabelled(store, query, init, s, p);
      if ParshiotFile(last) in store.lists {
        var division := ParshiotResults(store, query, last, store.lists[ParshiotFile(last)]);
        LabelledAppend(SedarimResults(store, query, init), division, Torah, Some(s), p);
        if last != s {
          ParshiotResultsSound(store, query, last, store.lists[ParshiotFile(last)]);
          LabelledNone(division, Torah, Some(s), p);
        }
      }
    }
  }

  /** Over a festival listing without repeats, a festival's label picks out exactly its own file's results. */
  lemma {:induction false} MoadimLabelled(store: Store, query: string, moadim: seq<string>, m: string)
    requires NoDup(moadim)
    ensures Labelled(MoadimResults(store, query, moadim), Moadim, None, m) ==
      if m in moadim && MoadimContentFile(m) in store.items
      then SectionResults(store.items[MoadimContentFile(m)], query, Moadim, None, m) else []
    decreases |moadim|
  {
    if moadim != [] {
      var init := moadim[..|moadim| - 1];
      var last := moadim[|moadim| - 1];
      assert moadim == init + [last];
      NoDupPrefix(moadim);
      MoadimLabelled(store, query, init, m);
      var file := MoadimContentFile(last);
      if file in store.items {
        var section := SectionResults(store.items[file], query, Moadim, None, last);
        LabelledAppend(MoadimResults(store, query, init), section, Moadim, None, m);
        SectionLabelled(store.items[file], query, Moadim, None, last, Moadim, None, m);
      }
    }
  }

  /** The matching items of a file without repeated items have no repeats. */
  lemma {:induction false} MatchingItemsNoDup(items: seq<Item>, query: string)
    requires NoDup(items)
    ensures NoDup(MatchingItems(items, query))
    decreases |items|
  {
    if items != [] {
      var rest := items[1..];
      assert NoDup(rest) by {
        forall i, j | 0 <= i < j < |rest| ensures rest[i] != rest[j] {
          assert rest[i] == items[i + 1] && rest[j] == items[j + 1];
        }
      }
      MatchingItemsNoDup(rest, query);
      assert items[0] !in rest by {
        forall k | 0 <= k < |rest| ensures rest[k] != items[0] {
          assert rest[k] == items[k + 1];
        }
      }
    }
  }

  /**
   * When the division and section listings have no repeats, the results
   * labelled with a listed section are exactly that section's file results:
   * its matching items, each once, in file order.
   */
  lemma SectionReportedOnce(q: Option<string>, store: Store, s: string, p: string)
    requires Search(q, store).Found? && "Torah" in store.lists[TypesFile]
    requires SedarimFile in store.lists && NoDup(store.lists[SedarimFile]) && s in store.lists[SedarimFile]
    requires ParshiotFile(s) in store.lists && NoDup(store.lists[ParshiotFile(s)]) && p in store.lists[ParshiotFile(s)]
    requires TorahContentFile(s, p) in store.items
    ensures Labelled(Search(q, store).results, Torah, Some(s), p) ==
      SectionResults(store.items[TorahContentFile(s, p)], q.value, Torah, Some(s), p)
  {
    var types := store.lists[TypesFile];
    var torah := SedarimResults(store, q.value, store.lists[SedarimFile]);
    SedarimLabelled(store, q.value, store.lists[SedarimFile], s, p);
    ParshiotLabelled(store, q.value, s, store.lists[ParshiotFile(s)], s, p);
    if "Moadim" in types && MoadimFile in store.lists {
      var moadim := MoadimResults(store, q.value, store.lists[MoadimFile]);
      MoadimResultsSound(store, q.value, store.lists[MoadimFile]);
      LabelledNone(moadim, Torah, Some(s), p);
      LabelledAppend(torah, moadim, Torah, Some(s), p);
    } else {
      assert ListedResults(store, q.value) == torah + [];
      assert torah + [] == torah;
    }
  }

  /**
   * When the festival listing has no repeats, the results labelled with a
   * listed festival are exactly that festival's file results.
   */
  lemma FestivalReportedOnce(q: Option<string>, store: Store, m: string)
    requires Search(q, store).Found? && "Moadim" in store.lists[TypesFile]
    requires MoadimFile in store.lists && NoDup(store.lists[MoadimFile]) && m in store.lists[MoadimFile]
    requires MoadimContentFile(m) in store.items
    ensures Labelled(Search(q, store).results, Moadim, None, m) ==
      SectionResults(store.items[MoadimContentFile(m)], q.value, Moadim, None, m)
  {
    var types := store.lists[TypesFile];
    var moadim := MoadimResults(store, q.value, store.lists[MoadimFile]);
    MoadimLabelled(store, q.value, store.lists[MoadimFile], m);
    if "Torah" in types {
      var torah := SedarimResults(store, q.value, store.lists[SedarimFile]);
      SedarimResultsSound(store, q.value, store.lists[SedarimFile]);
      LabelledNone(torah, Moadim, None, m);
      LabelledAppend(torah, moadim, Moadim, None, m);
    } else {
      assert ListedResults(store, q.value) == [] + moadim;
      assert [] + moadim == moadim;
    }
  }

  // ---------------------------------------------------------------------------
  // Listing order
  // ---------------------------------------------------------------------------

  /** a may be reported before b: an earlier division, or the same division and a section not after b's. */
  predicate TorahInOrder(a: SearchResult, b: SearchResult) {
    && a.seder.Some? && b.seder.Some?
    && (StrLess(a.seder.value, b.seder.value) || (a.seder == b.seder && !StrLess(b.parsha, a.parsha)))
  }

  /** No result's label sorts before an earlier result's label. */
  predicate LabelsAscending(rs: seq<SearchResult>) {
    forall i, j :: 0 <= i < j < |rs| ==> !StrLess(rs[j].parsha, rs[i].parsha)
  }

  lemma SortedPrefix(init: seq<string>, last: string)
    requires Sorted(init + [last])
    ensures Sorted(init)
    ensures forall x :: x in init ==> !StrLess(last, x)
  {
    var s := init + [last];
    forall i, j | 0 <= i < j < |init| ensures !StrLess(init[j], init[i]) {
      assert s[i] == init[i] && s[j] == init[j];
    }
    forall x | x in init ensures !StrLess(last, x) {
      var k :| 0 <= k < |init| && init[k] == x;
      assert s[k] == x && s[|init|] == last;
    }
  }

  /** Results of earlier files, all with labels not after `last`, followed by results labelled `last`. */
  lemma AscendingSnoc(a: seq<SearchResult>, b: seq<SearchResult>, last: string)
    requires LabelsAscending(a)
    requires forall r :: r in a ==> !StrLess(last, r.parsha)
    requires forall r :: r in b ==> r.parsha == last
    ensures LabelsAscending(a + b)
  {
    var rs := a + b;
    forall i, j | 0 <= i < j < |rs| ensures !StrLess(rs[j].parsha, rs[i].parsha) {
      if j < |a| {
        assert rs[i] == a[i] && rs[j] == a[j];
      } else if i < |a| {
        assert rs[i] == a[i] && a[i] in a;
        assert rs[j] == b[j - |a|] && b[j - |a|] in b;
      } else {
        assert rs[i] == b[i - |a|] && b[i - |a|] in b;
        assert rs[j] == b[j - |a|] && b[j - |a|] in b;
        StrLessIrreflexive(last);
      }
    }
  }

  /** Within a division, results follow its sorted section listing. */
  lemma {:induction false} ParshiotResultsOrdered(store: Store, query: string, seder: string, parshiot: seq<string>)
    requires Sorted(parshiot)
    ensures LabelsAscending(ParshiotResults(store, query, seder, parshiot))
    decreases |parshiot|
  {
    if parshiot != [] {
      var init := parshiot[..|parshiot| - 1];
      var last := parshiot[|parshiot| - 1];
      assert parshiot == init + [last];
      SortedPrefix(init, last);
      ParshiotResultsOrdered(store, query, seder, init);
      var file := TorahContentFile(seder, last);
      if file in store.items {
        var before := ParshiotResults(store, query, seder, init);
        ParshiotResultsSound(store, query, seder, init);
        SectionResultsSound(store.items[file], query, Torah, Some(seder), last);
        AscendingSnoc(before, SectionResults(store.items[file], query, Torah, Some(seder), last), last);
      }
    }
  }

  /** Festival results follow the sorted festival listing. */
  lemma {:induction false} MoadimResultsOrdered(store: Store, query: string, moadim: seq<string>)
    requires Sorted(moadim)
    ensures LabelsAscending(MoadimResults(store, query, moadim))
    decreases |moadim|
  {
    if moadim != [] {
      var init := moadim[..|moadim| - 1];
      var last := moadim[|moadim| - 1];
      assert moadim == init + [last];
      SortedPrefix(init, last);
      MoadimResultsOrdered(store, query, init);
      var file := MoadimContentFile(last);
      if file in store.items {
        var before := MoadimResults(store, query, init);
        MoadimResultsSound(store, query, init);
        SectionResultsSound(store.items[file], query, Moadim, None, last);
        AscendingSnoc(before, SectionResults(store.items[file], query, Moadim, None, last), last);
      }
    }
  }

  predicate TorahAscending(rs: seq<SearchResult>) {
    forall i, j :: 0 <= i < j < |rs| ==> TorahInOrder(rs[i], rs[j])
  }

  /** Results of earlier divisions, all before `last`, followed by the results of division `last`, in section order. */
  lemma DivisionSnoc(a: seq<SearchResult>, b: seq<SearchResult>, last: string)
    requires TorahAscending(a)
    requires forall r :: r in a ==> r.seder.Some? && StrLess(r.seder.value, last)
    requires forall r :: r in b ==> r.seder == Some(last)
    requires LabelsAscending(b)
    ensures TorahAscending(a + b)
  {
    var rs := a + b;
    forall i, j | 0 <= i < j < |rs| ensures TorahInOrder(rs[i], rs[j]) {
      if j < |a| {
        assert rs[i] == a[i] && rs[j] == a[j];
      } else if i < |a| {
        assert rs[i] == a[i] && a[i] in a;
        assert rs[j] == b[j - |a|] && b[j - |a|] in b;
      } else {
        assert rs[i] == b[i - |a|] && b[i - |a|] in b;
        assert rs[j] == b[j - |a|] && b[j - |a|] in b;
      }
    }
  }

  lemma StrictPrefix(init: seq<string>, last: string)
    requires StrictlySorted(init + [last])
    ensures StrictlySorted(init)
    ensures forall x :: x in init ==> StrLess(x, last)
  {
    var s := init + [last];
    forall i, j | 0 <= i < j < |init| ensures StrLess(init[i], init[j]) {
      assert s[i] == init[i] && s[j] == init[j];
    }
    forall x | x in init ensures StrLess(x, last) {
      var k :| 0 <= k < |init| && init[k] == x;
      assert s[k] == x && s[|init|] == last;
    }
  }

  /** Torah results follow the strictly sorted division listing, and each division its sorted section listing. */
  lemma {:induction false} SedarimResultsOrdered(store: Store, query: string, sedarim: seq<string>)
    requires StrictlySorted(sedarim)
    requires forall t :: t in sedarim && ParshiotFile(t) in store.lists ==> Sorted(store.lists[ParshiotFile(t)])
    ensures TorahAscending(SedarimResults(store, query, sedarim))
    decreases |sedarim|
  {
    if sedarim != [] {
      var init := sedarim[..|sedarim| - 1];
      var last := sedarim[|sedarim| - 1];
      assert sedarim == init + [last];
      StrictPrefix(init, last);
      SedarimResultsOrdered(store, query, init);
      if ParshiotFile(last) in store.lists {
        var parshiot := store.lists[ParshiotFile(last)];
        SedarimResultsSound(store, query, init);
        ParshiotResultsSound(store, query, last, parshiot);
        ParshiotResultsOrdered(store, query, last, parshiot);
        DivisionSnoc(SedarimResults(store, query, init), ParshiotResults(store, query, last, parshiot), last);
      }
    }
  }

  /** A run of Torah results followed by a run of festival results keeps each run's order. */
  lemma BlocksInOrder(torah: seq<SearchResult>, moadim: seq<SearchResult>)
    requires forall r :: r in torah ==> r.category == Torah
    requires forall r :: r in moadim ==> r.category == Moadim
    requires TorahAscending(torah) && LabelsAscending(moadim)
    ensures var rs := torah + moadim;
      && (forall i, j :: 0 <= i < j < |rs| && rs[j].category == Torah ==> TorahInOrder(rs[i], rs[j]))
      && (forall i, j :: 0 <= i < j < |rs| && rs[i].category == Moadim ==>
            rs[j].category == Moadim && !StrLess(rs[j].parsha, rs[i].parsha))
  {
    var rs := torah + moadim;
    forall i, j | 0 <= i < j < |rs| && rs[j].category == Torah ensures TorahInOrder(rs[i], rs[j]) {
      assert rs[i] == torah[i] && rs[j] == torah[j];
    }
    forall i, j | 0 <= i < j < |rs| && rs[i].category == Moadim
      ensures rs[j].category == Moadim && !StrLess(rs[j].parsha, rs[i].parsha)
    {
      assert rs[i] == moadim[i - |torah|] && rs[j] == moadim[j - |torah|];
      assert moadim[j - |torah|] in moadim;
    }
  }

  lemma ListedTorahOrdered(store: Store, query: string)
    requires TypesFile in store.lists
    requires "Torah" in store.lists[TypesFile] ==>
      && SedarimFile in store.lists && StrictlySorted(store.lists[SedarimFile])
      && forall t :: t in store.lists[SedarimFile] && ParshiotFile(t) in store.lists ==> Sorted(store.lists[ParshiotFile(t)])
    ensures var torah := if "Torah" in store.lists[TypesFile] then SedarimResults(store, query, store.lists[SedarimFile]) else [];
      TorahAscending(torah) && forall r :: r in torah ==> r.category == Torah
  {
    if "Torah" in store.lists[TypesFile] {
      SedarimResultsOrdered(store, query, store.lists[SedarimFile]);
      SedarimResultsSound(store, query, store.lists[SedarimFile]);
    }
  }

  lemma ListedMoadimOrdered(store: Store, query: string)
    requires TypesFile in store.lists
    requires MoadimFile in store.lists ==> Sorted(store.lists[MoadimFile])
    ensures var moadim :=
        if "Moadim" in store.lists[TypesFile] && MoadimFile in store.lists
        then MoadimResults(store, query, store.lists[MoadimFile]) else [];
      LabelsAscending(moadim) && forall r :: r in moadim ==> r.category == Moadim
  {
    if "Moadim" in store.lists[TypesFile] && MoadimFile in store.lists {
      MoadimResultsOrdered(store, query, store.lists[MoadimFile]);
      MoadimResultsSound(store, query, store.lists[MoadimFile]);
    }
  }

  /**
   * With sorted listings, as the build writes them, every Torah result comes in
   * ascending (division, section) order, and every festival result comes after
   * them in ascending festival order.
   */
  lemma ResultsInListingOrder(q: Option<string>, store: Store)
    requires Search(q, store).Found?
    requires "Torah" in store.lists[TypesFile] ==>
      && SedarimFile in store.lists && StrictlySorted(store.lists[SedarimFile])
      && forall t :: t in store.lists[SedarimFile] && ParshiotFile(t) in store.lists ==> Sorted(store.lists[ParshiotFile(t)])
    requires MoadimFile in store.lists ==> Sorted(store.lists[MoadimFile])
    ensures var rs := Search(q, store).results;
      && (forall i, j :: 0 <= i < j < |rs| && rs[j].category == Torah ==> TorahInOrder(rs[i], rs[j]))
      && (forall i, j :: 0 <= i < j < |rs| && rs[i].category == Moadim ==>
            rs[j].category == Moadim && !StrLess(rs[j].parsha, rs[i].parsha))
  {
    var types := store.lists[TypesFile];
    var torah := if "Torah" in types then SedarimResults(store, q.value, store.lists[SedarimFile]) else [];
    var moadim :=
      if "Moadim" in types && MoadimFile in store.lists then MoadimResults(store, q.value, store.lists[MoadimFile])
      else [];
    assert Search(q, store).results == torah + moadim;
    ListedTorahOrdered(store, q.value);
    ListedMoadimOrdered(store, q.value);
    BlocksInOrder(torah, moadim);
  }
}
