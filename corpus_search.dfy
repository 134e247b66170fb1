/**
 * The search endpoint over the files the build writes: it never fails, it
 * reports only items of the sections built from the rows, each with its own
 * hit, and it reports every such item that matches.
 */
module CorpusSearch {
  import opened Wrappers
  import opened Strings
  import opened Sorting
  import opened Snapshot
  import opened Objects
  import opened Ingest
  import opened Emission
  import opened SearchRoute
  import opened SearchProperties
  import opened SearchOrder

  /** A written item file holds exactly the items of its section. */
  lemma WrittenItemsAreSectionItems(items: seq<Item>, it: Item)
    ensures it in ObjectValues(items) <==> it in items
  {
    ObjectValuesOrder(items);
    assert it in ObjectValues(items) <==> it in multiset(ObjectValues(items));
  }

  /** No missing listing: over a built corpus every accepted query is answered with results. */
  lemma BuiltCorpusSearchSucceeds(q: Option<string>, st: BuildState)
    requires Inv(st) && QueryAccepted(q)
    ensures Search(q, Emit(st)).Found?
    ensures "Torah" in Emit(st).lists[TypesFile] && "Moadim" in Emit(st).lists[TypesFile]
  {
    EmittedListings(st);
  }

  /** The result names a built section of a division and reports one of its items with that item's hit. */
  predicate FromBuiltTorahSection(st: BuildState, query: string, r: SearchResult) {
    && r.category == Torah && r.seder.Some? && r.seder.value in st.sedarimContent
    && r.parsha in st.sedarimContent[r.seder.value].contentByParsha
    && r.dvar in st.sedarimContent[r.seder.value].contentByParsha[r.parsha]
    && HitOf(r, query)
  }

  /** The result names a built festival and reports one of its items with that item's hit. */
  predicate FromBuiltFestival(st: BuildState, query: string, r: SearchResult) {
    && r.category == Moadim && r.seder.None? && r.parsha in st.moadimContent
    && r.dvar in st.moadimContent[r.parsha]
    && HitOf(r, query)
  }

  /**
   * Every result over a built corpus is a matching item of a built section,
   * provided no two divisions' sections share an item file name (a '-' in a
   * division key can make them clash, and the later write wins).
   */
  lemma BuiltCorpusResultsSound(q: Option<string>, st: BuildState)
    requires Inv(st) && QueryAccepted(q)
    requires DistinctItemFiles(st.sedarimContent)
    ensures Search(q, Emit(st)).Found?
    ensures forall r :: r in Search(q, Emit(st)).results ==>
      FromBuiltTorahSection(st, q.value, r) || FromBuiltFestival(st, q.value, r)
  {
    var out := Emit(st);
    BuiltCorpusSearchSucceeds(q, st);
    EmittedListings(st);
    EmittedTorahFiles(st);
    EmittedMoadimFiles(st);
    SearchResultsSound(q, out);
    forall r | r in Search(q, out).results
      ensures FromBuiltTorahSection(st, q.value, r) || FromBuiltFestival(st, q.value, r)
    {
      if r.category == Torah {
        TorahResultFromBuiltSection(q.value, st, out, r);
      } else {
        FestivalResultFromBuiltFestival(q.value, st, out, r);
      }
    }
  }

  lemma TorahResultFromBuiltSection(query: string, st: BuildState, out: Store, r: SearchResult)
    requires SedarimFile in out.lists && ListsExactly(out.lists[SedarimFile], st.sedarimContent)
    requires forall s :: s in st.sedarimContent ==>
      ParshiotFile(s) in out.lists && ListsExactly(out.lists[ParshiotFile(s)], st.sedarimContent[s].contentByParsha)
    requires forall s, p :: s in st.sedarimContent && p in st.sedarimContent[s].contentByParsha ==>
      TorahContentFile(s, p) in out.items &&
      out.items[TorahContentFile(s, p)] == ObjectValues(st.sedarimContent[s].contentByParsha[p])
    requires FromTorahSection(out, query, r)
    requires r.seder.value in out.lists[SedarimFile]
    requires ParshiotFile(r.seder.value) in out.lists && r.parsha in out.lists[ParshiotFile(r.seder.value)]
    ensures FromBuiltTorahSection(st, query, r)
  {
    var s := r.seder.value;
    assert s in Elems(out.lists[SedarimFile]);
    assert r.parsha in Elems(out.lists[ParshiotFile(s)]);
    WrittenItemsAreSectionItems(st.sedarimContent[s].contentByParsha[r.parsha], r.dvar);
  }

  lemma FestivalResultFromBuiltFestival(query: string, st: BuildState, out: Store, r: SearchResult)
    requires MoadimFile in out.lists && ListsExactly(out.lists[MoadimFile], st.moadimContent)
    requires forall m :: m in st.moadimContent ==>
      MoadimContentFile(m) in out.items && out.items[MoadimContentFile(m)] == ObjectValues(st.moadimContent[m])
    requires FromFestival(out, query, r)
    requires r.parsha in out.lists[MoadimFile]
    ensures FromBuiltFestival(st, query, r)
  {
    assert r.parsha in Elems(out.lists[MoadimFile]);
    WrittenItemsAreSectionItems(st.moadimContent[r.parsha], r.dvar);
  }

  /** Every matching item of a built Torah section is reported, labelled with its division and section. */
  lemma BuiltCorpusFindsTorahItem(q: Option<string>, st: BuildState, s: string, p: string, it: Item)
    requires Inv(st) && QueryAccepted(q)
    requires DistinctItemFiles(st.sedarimContent)
    requires s in st.sedarimContent && p in st.sedarimContent[s].contentByParsha
    requires it in st.sedarimContent[s].contentByParsha[p] && MatchItem(it, q.value).Some?
    ensures Search(q, Emit(st)).Found?
    ensures var h := MatchItem(it, q.value).value;
      SearchResult(it, Torah, Some(s), p, h.matchType, h.matchText) in Search(q, Emit(st)).results
  {
    var out := Emit(st);
    BuiltCorpusSearchSucceeds(q, st);
    EmittedListings(st);
    EmittedTorahFiles(st);
    assert s in Elems(out.lists[SedarimFile]);
    assert p in Elems(out.lists[ParshiotFile(s)]);
    WrittenItemsAreSectionItems(st.sedarimContent[s].contentByParsha[p], it);
    SearchFindsTorahMatch(q, out, s, p, it);
  }

  /** Every matching item of a built festival is reported, labelled with its festival. */
  lemma BuiltCorpusFindsFestivalItem(q: Option<string>, st: BuildState, m: string, it: Item)
    requires Inv(st) && QueryAccepted(q)
    requires m in st.moadimContent && it in st.moadimContent[m] && MatchItem(it, q.value).Some?
    ensures Search(q, Emit(st)).Found?
    ensures var h := MatchItem(it, q.value).value;
      SearchResult(it, Moadim, None, m, h.matchType, h.matchText) in Search(q, Emit(st)).results
  {
    var out := Emit(st);
    BuiltCorpusSearchSucceeds(q, st);
    EmittedListings(st);
    EmittedMoadimFiles(st);
    assert m in Elems(out.lists[MoadimFile]);
    WrittenItemsAreSectionItems(st.moadimContent[m], it);
    SearchFindsFestivalMatch(q, out, m, it);
  }

  // ---------------------------------------------------------------------------
  // Each item once, in listing order
  // ---------------------------------------------------------------------------

  /** A section's items have distinct ids, so its written file repeats no item. */
  lemma WrittenItemsDistinct(items: seq<Item>)
    requires forall i, j :: 0 <= i < j < |items| ==> items[i].id != items[j].id
    ensures NoDup(ObjectValues(items))
  {
    assert NoDup(items) by {
      forall i, j | 0 <= i < j < |items| ensures items[i] != items[j] {
        assert items[i].id != items[j].id;
      }
    }
    ObjectValuesOrder(items);
    NoDupPermutation(items, ObjectValues(items));
  }

  /**
   * Over a built corpus, the results labelled with a built section are exactly
   * the results of its written file: its matching items in `Object.values`
   * order, each reported once.
   */
  lemma BuiltSectionReportedOnce(q: Option<string>, st: BuildState, s: string, p: string)
    requires Inv(st) && QueryAccepted(q)
    requires DistinctItemFiles(st.sedarimContent)
    requires s in st.sedarimContent && p in st.sedarimContent[s].contentByParsha
    ensures Search(q, Emit(st)).Found?
    ensures var written := ObjectValues(st.sedarimContent[s].contentByParsha[p]);
      var rs := Labelled(Search(q, Emit(st)).results, Torah, Some(s), p);
      && rs == SectionResults(written, q.value, Torah, Some(s), p)
      && Dvarim(rs) == MatchingItems(written, q.value)
      && NoDup(Dvarim(rs))
  {
    var out := Emit(st);
    var items := st.sedarimContent[s].contentByParsha[p];
    BuiltCorpusSearchSucceeds(q, st);
    EmittedListings(st);
    EmittedTorahFiles(st);
    StrictlySortedIsSorted(out.lists[SedarimFile]);
    StrictlySortedIsSorted(out.lists[ParshiotFile(s)]);
    assert s in Elems(out.lists[SedarimFile]);
    assert p in Elems(out.lists[ParshiotFile(s)]);
    SectionReportedOnce(q, out, s, p);
    SectionResultsAreMatchingItems(ObjectValues(items), q.value, Torah, Some(s), p);
    assert SectionValid(items, true) by {
      assert SederValid(st.sedarimContent[s]);
    }
    WrittenItemsDistinct(items);
    MatchingItemsNoDup(ObjectValues(items), q.value);
  }

  /**
   * Over a built corpus, the results labelled with a built festival are
   * exactly the results of its written file, each item reported once.
   */
  lemma BuiltFestivalReportedOnce(q: Option<string>, st: BuildState, m: string)
    requires Inv(st) && QueryAccepted(q)
    requires m in st.moadimContent
    ensures Search(q, Emit(st)).Found?
    ensures var written := ObjectValues(st.moadimContent[m]);
      var rs := Labelled(Search(q, Emit(st)).results, Moadim, None, m);
      && rs == SectionResults(written, q.value, Moadim, None, m)
      && Dvarim(rs) == MatchingItems(written, q.value)
      && NoDup(Dvarim(rs))
  {
    var out := Emit(st);
    var items := st.moadimContent[m];
    BuiltCorpusSearchSucceeds(q, st);
    EmittedListings(st);
    EmittedMoadimFiles(st);
    StrictlySortedIsSorted(out.lists[MoadimFile]);
    assert m in Elems(out.lists[MoadimFile]);
    FestivalReportedOnce(q, out, m);
    SectionResultsAreMatchingItems(ObjectValues(items), q.value, Moadim, None, m);
    WrittenItemsDistinct(items);
    MatchingItemsNoDup(ObjectValues(items), q.value);
  }

  /**
   * Over a built corpus, Torah results come in ascending (division, section)
   * order and festival results follow them in ascending festival order.
   */
  lemma BuiltCorpusResultOrder(q: Option<string>, st: BuildState)
    requires Inv(st) && QueryAccepted(q)
    ensures Search(q, Emit(st)).Found?
    ensures var rs := Search(q, Emit(st)).results;
      && (forall i, j :: 0 <= i < j < |rs| && rs[j].category == Torah ==> TorahInOrder(rs[i], rs[j]))
      && (forall i, j :: 0 <= i < j < |rs| && rs[i].category == Moadim ==>
            rs[j].category == Moadim && !StrLess(rs[j].parsha, rs[i].parsha))
  {
    var out := Emit(st);
    BuiltCorpusSearchSucceeds(q, st);
    EmittedListings(st);
    StrictlySortedIsSorted(out.lists[MoadimFile]);
    forall t | t in out.lists[SedarimFile] && ParshiotFile(t) in out.lists
      ensures Sorted(out.lists[ParshiotFile(t)])
    {
      assert t in Elems(out.lists[SedarimFile]);
      StrictlySortedIsSorted(out.lists[ParshiotFile(t)]);
    }
    ResultsInListingOrder(q, out);
  }
}
