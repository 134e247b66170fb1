/**
 * What the search endpoint promises: the query guard, the failure cases, the
 * envelope, the title > summary > first-passage priority, the exact set of
 * results a section contributes, traversal order, and, over a corpus written
 * by the build, that the search finds every matching item and nothing else.
 */
module SearchProperties {
  import opened Wrappers
  import opened Strings
  import opened Sorting
  import opened Snapshot
  import opened Objects
  import opened Ingest
  import opened Emission
  import opened SearchRoute

  /** A query the endpoint searches with: present, and two UTF-16 units or more once trimmed. */
  predicate QueryAccepted(q: Option<string>) {
    q.Some? && Utf16Length(Trim(q.value)) >= 2
  }

  /** The result reports the hit its item produces. */
  predicate HitOf(r: SearchResult, query: string) {
    MatchItem(r.dvar, query) == Some(Hit(r.matchType, r.matchText))
  }

  // ---------------------------------------------------------------------------
  // Guard, failures and envelope
  // ---------------------------------------------------------------------------

  /** Status 400 exactly for an absent or too-short query, with its fixed message. */
  lemma QueryGuard(q: Option<string>, store: Store)
    ensures Search(q, store).BadRequest? <==> !QueryAccepted(q)
    ensures Search(q, store).BadRequest? ==> Search(q, store).error == ShortQueryMessage
  {
  }

  /**
   * The empty query and a one-letter query padded with spaces are refused; a
   * two-letter query is searched.
   */
  lemma QueryLengthExamples()
    ensures !QueryAccepted(Some(""))
    ensures !QueryAccepted(Some(" a "))
    ensures QueryAccepted(Some("ab"))
  {
    PaddedLetter();
    PlainPair();
    assert Utf16Length("a") == 1 by {
      assert "a"[..0] == "";
    }
  }

  lemma TrimPadded(inner: string)
    requires |inner| > 0 && !IsJsSpace(inner[0]) && !IsJsSpace(inner[|inner| - 1])
    ensures Trim([' '] + inner + [' ']) == inner
  {
    var s := [' '] + inner + [' '];
    assert s[1..] == inner + [' '];
    assert TrimStart(inner + [' ']) == inner + [' '];
    assert TrimStart(s) == inner + [' '];
    assert (inner + [' '])[..|inner|] == inner;
    assert TrimEnd(inner) == inner;
  }

  lemma TrimLeading(inner: string)
    requires |inner| > 0 && !IsJsSpace(inner[0]) && !IsJsSpace(inner[|inner| - 1])
    ensures Trim([' '] + inner) == inner
  {
    var s := [' '] + inner;
    assert s[1..] == inner;
    assert TrimStart(inner) == inner;
    assert TrimEnd(inner) == inner;
  }

  lemma PaddedLetter()
    ensures Trim(" a ") == "a"
  {
    assert !IsJsSpace('a');
    TrimPadded("a");
    assert " a " == [' '] + "a" + [' '];
  }

  lemma PlainPair()
    ensures Trim("ab") == "ab"
  {
    assert !IsJsSpace('a') && !IsJsSpace('b');
    assert TrimStart("ab") == "ab";
    assert TrimEnd("ab") == "ab";
  }

  lemma LeadingSpace()
    ensures Trim(" ab") == "ab"
  {
    assert !IsJsSpace('a') && !IsJsSpace('b');
    TrimLeading("ab");
    assert " ab" == [' '] + "ab";
  }

  /**
   * Status 500 exactly when `types.json` is missing, or Torah is listed and
   * `sedarim.json` is missing.
   */
  lemma FailureCases(q: Option<string>, store: Store)
    requires QueryAccepted(q)
    ensures Search(q, store).ServerError? <==>
      TypesFile !in store.lists || ("Torah" in store.lists[TypesFile] && SedarimFile !in store.lists)
    ensures Search(q, store).ServerError? ==> Search(q, store).error == SearchFailedMessage
  {
  }

  /** A missing `moadim.json` does not fail the search: only the festivals are left out. */
  lemma MissingFestivalListingIsNotAFailure(q: Option<string>, store: Store)
    requires QueryAccepted(q)
    requires TypesFile in store.lists && SedarimFile in store.lists && MoadimFile !in store.lists
    ensures Search(q, store).Found?
    ensures forall r :: r in Search(q, store).results ==> r.category == Torah
  {
    var types := store.lists[TypesFile];
    if "Torah" in types {
      SedarimResultsSound(store, q.value, store.lists[SedarimFile]);
    }
  }

  /** The envelope: `count` is the number of results and `query` is the query as received, untrimmed. */
  lemma Envelope(q: Option<string>, store: Store)
    requires Search(q, store).Found?
    ensures QueryAccepted(q)
    ensures Search(q, store).count == |Search(q, store).results|
    ensures Search(q, store).query == q.value
  {
  }

  /** Matching uses the query as received: a leading space the trimmed query would not have keeps a title from matching. */
  lemma UntrimmedQueryExample()
    ensures QueryAccepted(Some(" ab"))
    ensures MatchItem(Item("d1", "ab", "", []), " ab") == None
  {
    LeadingSpace();
    assert !FieldMatches("ab", " ab") by {
      assert |Lower("ab")| < |Lower(" ab")|;
    }
  }

  // ---------------------------------------------------------------------------
  // One item: the priority match
  // ---------------------------------------------------------------------------

  /** A matching title is reported, whatever the summary and passages hold. */
  lemma TitleMatchWins(it: Item, query: string)
    requires FieldMatches(it.title, query)
    ensures MatchItem(it, query) == Some(Hit(TitleMatch, it.title))
  {
  }

  /**
   * What each match type means: title when the title matches; summary when it
   * does and the title does not; content otherwise, with the first matching
   * passage's text. An empty field never matches, even an empty query, so the
   * reported text is never empty.
   */
  lemma MatchTypeMeaning(it: Item, query: string)
    requires MatchItem(it, query).Some?
    ensures var h := MatchItem(it, query).value;
      && (h.matchType == TitleMatch <==> FieldMatches(it.title, query))
      && (h.matchType == SummaryMatch <==> !FieldMatches(it.title, query) && FieldMatches(it.summary, query))
      && (h.matchType == TitleMatch ==> h.matchText == it.title)
      && (h.matchType == SummaryMatch ==> h.matchText == it.summary)
      && (h.matchType == ContentMatch ==>
            exists k :: 0 <= k < |it.contents| && h.matchText == it.contents[k].content
              && FieldMatches(it.contents[k].content, query)
              && forall j :: 0 <= j < k ==> !FieldMatches(it.contents[j].content, query))
      && h.matchText != ""
  {
    var h := MatchItem(it, query).value;
    if h.matchType == ContentMatch {
      var k := FirstMatchingPassage(it.contents, query);
      assert h.matchText == it.contents[k].content;
    }
  }

  /** An item produces a hit exactly when its title, its summary or one of its passages matches. */
  lemma ItemMatchesIff(it: Item, query: string)
    ensures MatchItem(it, query).Some? <==>
      || FieldMatches(it.title, query)
      || FieldMatches(it.summary, query)
      || exists k :: 0 <= k < |it.contents| && FieldMatches(it.contents[k].content, query)
  {
    if !FieldMatches(it.title, query) && !FieldMatches(it.summary, query) {
      var k := FirstMatchingPassage(it.contents, query);
      if exists j :: 0 <= j < |it.contents| && FieldMatches(it.contents[j].content, query) {
        var j :| 0 <= j < |it.contents| && FieldMatches(it.contents[j].content, query);
        assert k <= j;
      }
    }
  }

  /** The reported text is never empty and always contains the query, ignoring case. */
  lemma HitTextHoldsQuery(it: Item, query: string)
    requires MatchItem(it, query).Some?
    ensures MatchItem(it, query).value.matchText != ""
    ensures ContainsIgnoreCase(MatchItem(it, query).value.matchText, query)
  {
  }

  // ---------------------------------------------------------------------------
  // One item file: exactly the matching items, in order
  // ---------------------------------------------------------------------------

  /** The items of a file that produce a hit, in file order. */
  function MatchingItems(items: seq<Item>, query: string): (r: seq<Item>)
    ensures |r| <= |items|
    ensures forall it :: it in r <==> it in items && MatchItem(it, query).Some?
  {
    if items == [] then []
    else (if MatchItem(items[0], query).Some? then [items[0]] else []) + MatchingItems(items[1..], query)
  }

  function Dvarim(results: seq<SearchResult>): (r: seq<Item>)
    ensures |r| == |results|
  {
    seq(|results|, i requires 0 <= i < |results| => results[i].dvar)
  }

  lemma DvarimSnoc(rs: seq<SearchResult>, r: SearchResult)
    ensures Dvarim(rs + [r]) == Dvarim(rs) + [r.dvar]
  {
  }

  lemma {:induction false} MatchingItemsAppend(a: seq<Item>, b: seq<Item>, query: string)
    ensures MatchingItems(a + b, query) == MatchingItems(a, query) + MatchingItems(b, query)
  {
    if a == [] {
      assert a + b == b;
    } else {
      assert (a + b)[1..] == a[1..] + b;
      MatchingItemsAppend(a[1..], b, query);
    }
  }

  /** A file's results are its matching items, each once and in file order. */
  lemma {:induction false} SectionResultsAreMatchingItems(
    items: seq<Item>, query: string, category: Category, seder: Option<string>, parsha: string)
    ensures Dvarim(SectionResults(items, query, category, seder, parsha)) == MatchingItems(items, query)
  {
    if items != [] {
      var init := items[..|items| - 1];
      var last := items[|items| - 1];
      var before := SectionResults(init, query, category, seder, parsha);
      SectionResultsAreMatchingItems(init, query, category, seder, parsha);
      assert items == init + [last];
      MatchingItemsAppend(init, [last], query);
      assert MatchingItems([last], query) == (if MatchItem(last, query).Some? then [last] else []) by {
        assert [last][1..] == [];
      }
      match MatchItem(last, query)
      case None =>
        assert SectionResults(items, query, category, seder, parsha) == before;
      case Some(h) =>
        var r := SearchResult(last, category, seder, parsha, h.matchType, h.matchText);
        assert SectionResults(items, query, category, seder, parsha) == before + [r];
        DvarimSnoc(before, r);
    }
  }

  /** Every result of a file carries the given labels, an item of the file and that item's hit. */
  lemma {:induction false} SectionResultsSound(
    items: seq<Item>, query: string, category: Category, seder: Option<string>, parsha: string)
    ensures forall r :: r in SectionResults(items, query, category, seder, parsha) ==>
      r.category == category && r.seder == seder && r.parsha == parsha && r.dvar in items && HitOf(r, query)
  {
    if items != [] {
      var init := items[..|items| - 1];
      SectionResultsSound(init, query, category, seder, parsha);
      forall it | it in init ensures it in items {
      }
    }
  }

  /** Every matching item of a file is reported, with its hit. */
  lemma SectionResultsComplete(
    items: seq<Item>, query: string, category: Category, seder: Option<string>, parsha: string, it: Item)
    requires it in items && MatchItem(it, query).Some?
    ensures var h := MatchItem(it, query).value;
      SearchResult(it, category, seder, parsha, h.matchType, h.matchText)
        in SectionResults(items, query, category, seder, parsha)
  {
    var rs := SectionResults(items, query, category, seder, parsha);
    SectionResultsAreMatchingItems(items, query, category, seder, parsha);
    SectionResultsSound(items, query, category, seder, parsha);
    assert it in Dvarim(rs);
    var i :| 0 <= i < |rs| && Dvarim(rs)[i] == it;
    assert rs[i] in rs;
  }

  // ---------------------------------------------------------------------------
  // The walk over the corpus
  // ---------------------------------------------------------------------------

  /** The result reports an item of the Torah item file its labels name. */
  predicate FromTorahSection(store: Store, query: string, r: SearchResult) {
    && r.category == Torah && r.seder.Some?
    && TorahContentFile(r.seder.value, r.parsha) in store.items
    && r.dvar in store.items[TorahContentFile(r.seder.value, r.parsha)]
    && HitOf(r, query)
  }

  /** The result reports an item of the festival item file its label names. */
  predicate FromFestival(store: Store, query: string, r: SearchResult) {
    && r.category == Moadim && r.seder.None?
    && MoadimContentFile(r.parsha) in store.items
    && r.dvar in store.items[MoadimContentFile(r.parsha)]
    && HitOf(r, query)
  }

  lemma {:induction false} ParshiotResultsSound(store: Store, query: string, seder: string, parshiot: seq<string>)
    ensures forall r :: r in ParshiotResults(store, query, seder, parshiot) ==>
      FromTorahSection(store, query, r) && r.seder == Some(seder) && r.parsha in parshiot
  {
    if parshiot != [] {
      var init := parshiot[..|parshiot| - 1];
      var parsha := parshiot[|parshiot| - 1];
      ParshiotResultsSound(store, query, seder, init);
      var file := TorahContentFile(seder, parsha);
      if file in store.items {
        SectionResultsSound(store.items[file], query, Torah, Some(seder), parsha);
      }
      forall p | p in init ensures p in parshiot {
      }
    }
  }

  lemma {:induction false} SedarimResultsSound(store: Store, query: string, sedarim: seq<string>)
    ensures forall r :: r in SedarimResults(store, query, sedarim) ==>
      && FromTorahSection(store, query, r) && r.seder.value in sedarim
      && ParshiotFile(r.seder.value) in store.lists && r.parsha in store.lists[ParshiotFile(r.seder.value)]
  {
    if sedarim != [] {
      var init := sedarim[..|sedarim| - 1];
      var seder := sedarim[|sedarim| - 1];
      SedarimResultsSound(store, query, init);
      if ParshiotFile(seder) in store.lists {
        ParshiotResultsSound(store, query, seder, store.lists[ParshiotFile(seder)]);
      }
      forall s | s in init ensures s in sedarim {
      }
    }
  }

  lemma {:induction false} MoadimResultsSound(store: Store, query: string, moadim: seq<string>)
    ensures forall r :: r in MoadimResults(store, query, moadim) ==> FromFestival(store, query, r) && r.parsha in moadim
  {
    if moadim != [] {
      var init := moadim[..|moadim| - 1];
      var moed := moadim[|moadim| - 1];
      MoadimResultsSound(store, query, init);
      if MoadimContentFile(moed) in store.items {
        SectionResultsSound(store.items[MoadimContentFile(moed)], query, Moadim, None, moed);
      }
      forall m | m in init ensures m in moadim {
      }
    }
  }

  lemma {:induction false} ParshiotResultsComplete(
    store: Store, query: string, seder: string, parshiot: seq<string>, parsha: string, it: Item)
    requires parsha in parshiot
    requires TorahContentFile(seder, parsha) in store.items
    requires it in store.items[TorahContentFile(seder, parsha)] && MatchItem(it, query).Some?
    ensures var h := MatchItem(it, query).value;
      SearchResult(it, Torah, Some(seder), parsha, h.matchType, h.matchText) in ParshiotResults(store, query, seder, parshiot)
  {
    var init := parshiot[..|parshiot| - 1];
    var last := parshiot[|parshiot| - 1];
    assert parshiot == init + [last];
    if parsha == last {
      SectionResultsComplete(store.items[TorahContentFile(seder, parsha)], query, Torah, Some(seder), parsha, it);
    } else {
      assert parsha in init;
      ParshiotResultsComplete(store, query, seder, init, parsha, it);
    }
  }

  lemma {:induction false} SedarimResultsComplete(
    store: Store, query: string, sedarim: seq<string>, seder: string, parsha: string, it: Item)
    requires seder in sedarim
    requires ParshiotFile(seder) in store.lists && parsha in store.lists[ParshiotFile(seder)]
    requires TorahContentFile(seder, parsha) in store.items
    requires it in store.items[TorahContentFile(seder, parsha)] && MatchItem(it, query).Some?
    ensures var h := MatchItem(it, query).value;
      SearchResult(it, Torah, Some(seder), parsha, h.matchType, h.matchText) in SedarimResults(store, query, sedarim)
  {
    var init := sedarim[..|sedarim| - 1];
    var last := sedarim[|sedarim| - 1];
    assert sedarim == init + [last];
    if seder == last {
      ParshiotResultsComplete(store, query, seder, store.lists[ParshiotFile(seder)], parsha, it);
    } else {
      assert seder in init;
      SedarimResultsComplete(store, query, init, seder, parsha, it);
    }
  }

  lemma {:induction false} MoadimResultsComplete(store: Store, query: string, moadim: seq<string>, moed: string, it: Item)
    requires moed in moadim
    requires MoadimContentFile(moed) in store.items
    requires it in store.items[MoadimContentFile(moed)] && MatchItem(it, query).Some?
    ensures var h := MatchItem(it, query).value;
      SearchResult(it, Moadim, None, moed, h.matchType, h.matchText) in MoadimResults(store, query, moadim)
  {
    var init := moadim[..|moadim| - 1];
    var last := moadim[|moadim| - 1];
    assert moadim == init + [last];
    if moed == last {
      SectionResultsComplete(store.items[MoadimContentFile(moed)], query, Moadim, None, moed, it);
    } else {
      assert moed in init;
      MoadimResultsComplete(store, query, init, moed, it);
    }
  }

  // ---------------------------------------------------------------------------
  // The whole response
  // ---------------------------------------------------------------------------

  /**
   * Every result comes from a listed category, a listed division and section
   * (or a listed festival), an item of the item file they name, and reports
   * that item's hit.
   */
  lemma SearchResultsSound(q: Option<string>, store: Store)
    requires Search(q, store).Found?
    ensures var types := store.lists[TypesFile];
      forall r :: r in Search(q, store).results ==>
        || (&& FromTorahSection(store, q.value, r) && "Torah" in types
            && SedarimFile in store.lists && r.seder.value in store.lists[SedarimFile]
            && ParshiotFile(r.seder.value) in store.lists && r.parsha in store.lists[ParshiotFile(r.seder.value)])
        || (&& FromFestival(store, q.value, r) && "Moadim" in types
            && MoadimFile in store.lists && r.parsha in store.lists[MoadimFile])
  {
    var types := store.lists[TypesFile];
    if "Torah" in types {
      SedarimResultsSound(store, q.value, store.lists[SedarimFile]);
    }
    if "Moadim" in types && MoadimFile in store.lists {
      MoadimResultsSound(store, q.value, store.lists[MoadimFile]);
    }
  }

  /** A run of Torah results followed by a run of festival results. */
  lemma CategoryBlocks(torah: seq<SearchResult>, moadim: seq<SearchResult>)
    requires forall r :: r in torah ==> r.category == Torah
    requires forall r :: r in moadim ==> r.category == Moadim
    ensures var rs := torah + moadim;
      forall i, j :: 0 <= i < j < |rs| && rs[i].category == Moadim ==> rs[j].category == Moadim
  {
    var rs := torah + moadim;
    forall i, j | 0 <= i < j < |rs| && rs[i].category == Moadim ensures rs[j].category == Moadim {
      assert rs[j] == moadim[j - |torah|];
      assert moadim[j - |torah|] in moadim;
    }
  }

  /** No re-ranking across categories: once a festival result appears, every later result is a festival result. */
  lemma TorahResultsComeFirst(q: Option<string>, store: Store)
    requires Search(q, store).Found?
    ensures var rs := Search(q, store).results;
      forall i, j :: 0 <= i < j < |rs| && rs[i].category == Moadim ==> rs[j].category == Moadim
  {
    var types := store.lists[TypesFile];
    var torah := if "Torah" in types then SedarimResults(store, q.value, store.lists[SedarimFile]) else [];
    var moadim :=
      if "Moadim" in types && MoadimFile in store.lists then MoadimResults(store, q.value, store.lists[MoadimFile])
      else [];
    if "Torah" in types {
      SedarimResultsSound(store, q.value, store.lists[SedarimFile]);
    }
    if "Moadim" in types && MoadimFile in store.lists {
      MoadimResultsSound(store, q.value, store.lists[MoadimFile]);
    }
    CategoryBlocks(torah, moadim);
  }

  /** A matching item of a listed section of a listed division is reported. */
  lemma SearchFindsTorahMatch(q: Option<string>, store: Store, seder: string, parsha: string, it: Item)
    requires Search(q, store).Found? && "Torah" in store.lists[TypesFile]
    requires seder in store.lists[SedarimFile]
    requires ParshiotFile(seder) in store.lists && parsha in store.lists[ParshiotFile(seder)]
    requires TorahContentFile(seder, parsha) in store.items
    requires it in store.items[TorahContentFile(seder, parsha)] && MatchItem(it, q.value).Some?
    ensures var h := MatchItem(it, q.value).value;
      SearchResult(it, Torah, Some(seder), parsha, h.matchType, h.matchText) in Search(q, store).results
  {
    SedarimResultsComplete(store, q.value, store.lists[SedarimFile], seder, parsha, it);
  }

  /** A matching item of a listed festival is reported when festivals are listed. */
  lemma SearchFindsFestivalMatch(q: Option<string>, store: Store, moed: string, it: Item)
    requires Search(q, store).Found? && "Moadim" in store.lists[TypesFile]
    requires MoadimFile in store.lists && moed in store.lists[MoadimFile]
    requires MoadimContentFile(moed) in store.items
    requires it in store.items[MoadimContentFile(moed)] && MatchItem(it, q.value).Some?
    ensures var h := MatchItem(it, q.value).value;
      SearchResult(it, Moadim, None, moed, h.matchType, h.matchText) in Search(q, store).results
  {
    MoadimResultsComplete(store, q.value, store.lists[MoadimFile], moed, it);
  }
}
