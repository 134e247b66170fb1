/**
 * The search endpoint: a case-insensitive substring search over the processed
 * corpus. Every item reports at most one hit, chosen by priority (title, then
 * summary, then its first matching passage), and results follow the order of
 * the corpus: Torah divisions, their sections, their items, then festivals
 * and their items.
 */
module SearchRoute {
  import opened Wrappers
  import opened Strings
  import opened Snapshot

  // ---------------------------------------------------------------------------
  // Results and responses
  // ---------------------------------------------------------------------------

  datatype MatchType = TitleMatch | SummaryMatch | ContentMatch

  /** The field that matched and its full text. */
  datatype Hit = Hit(matchType: MatchType, matchText: string)

  /** `{dvar, type, seder?, parsha, matchType, matchText}`; festival results have no `seder`. */
  datatype SearchResult = SearchResult(
    dvar: Item, category: Category, seder: Option<string>, parsha: string, matchType: MatchType, matchText: string)

  /** Status 400 and 500 carry an error message; status 200 carries the results envelope. */
  datatype Response =
    | BadRequest(error: string)
    | ServerError(error: string)
    | Found(results: seq<SearchResult>, count: nat, query: string)

  const ShortQueryMessage: string := "Search query must be at least 2 characters"
  const SearchFailedMessage: string := "Failed to search corpus"

  // ---------------------------------------------------------------------------
  // Matching one item
  // ---------------------------------------------------------------------------

  /** A field matches when it is non-empty and contains the query, ignoring case. */
  predicate FieldMatches(field: string, query: string) {
    field != "" && ContainsIgnoreCase(field, query)
  }

  /** Position of the first passage whose content matches, or |passages| when none does. */
  function FirstMatchingPassage(passages: seq<Passage>, query: string): (k: nat)
    ensures k <= |passages|
    ensures k < |passages| ==> FieldMatches(passages[k].content, query)
    ensures forall j :: 0 <= j < k ==> !FieldMatches(passages[j].content, query)
  {
    if passages == [] || FieldMatches(passages[0].content, query) then 0
    else 1 + FirstMatchingPassage(passages[1..], query)
  }

  /** The hit an item reports: title first, then summary, then the first matching passage. */
  function MatchItem(it: Item, query: string): Option<Hit> {
    if FieldMatches(it.title, query) then Some(Hit(TitleMatch, it.title))
    else if FieldMatches(it.summary, query) then Some(Hit(SummaryMatch, it.summary))
    else
      var k := FirstMatchingPassage(it.contents, query);
      if k < |it.contents| then Some(Hit(ContentMatch, it.contents[k].content)) else None
  }

  // ---------------------------------------------------------------------------
  // Walking the corpus
  // ---------------------------------------------------------------------------

  /** The results of one item file, in file order. */
  function SectionResults(items: seq<Item>, query: string, category: Category, seder: Option<string>, parsha: string)
    : seq<SearchResult>
    decreases |items|
  {
    if items == [] then []
    else
      var before := SectionResults(items[..|items| - 1], query, category, seder, parsha);
      var it := items[|items| - 1];
      match MatchItem(it, query)
      case None => before
      case Some(h) => before + [SearchResult(it, category, seder, parsha, h.matchType, h.matchText)]
  }

  /** The results of one division, section by section in listing order; a missing item file is skipped. */
  function ParshiotResults(store: Store, query: string, seder: string, parshiot: seq<string>): seq<SearchResult>
    decreases |parshiot|
  {
    if parshiot == [] then []
    else
      var before := ParshiotResults(store, query, seder, parshiot[..|parshiot| - 1]);
      var parsha := parshiot[|parshiot| - 1];
      var file := TorahContentFile(seder, parsha);
      if file in store.items then before + SectionResults(store.items[file], query, Torah, Some(seder), parsha)
      else before
  }

  /** The Torah results, division by division in listing order; a division without a section listing is skipped. */
  function SedarimResults(store: Store, query: string, sedarim: seq<string>): seq<SearchResult>
    decreases |sedarim|
  {
    if sedarim == [] then []
    else
      var before := SedarimResults(store, query, sedarim[..|sedarim| - 1]);
      var seder := sedarim[|sedarim| - 1];
      if ParshiotFile(seder) in store.lists then before + ParshiotResults(store, query, seder, store.lists[ParshiotFile(seder)])
      else before
  }

  /** The festival results, festival by festival in listing order; a missing item file is skipped. */
  function MoadimResults(store: Store, query: string, moadim: seq<string>): seq<SearchResult>
    decreases |moadim|
  {
    if moadim == [] then []
    else
      var before := MoadimResults(store, query, moadim[..|moadim| - 1]);
      var moed := moadim[|moadim| - 1];
      var file := MoadimContentFile(moed);
      if file in store.items then before + SectionResults(store.items[file], query, Moadim, None, moed)
      else before
  }

  /**
   * `GET /api/search?q=...`. A query that is absent or shorter than two
   * UTF-16 units once trimmed is refused. A missing `types.json`, or a missing
   * `sedarim.json` while Torah is listed, fails the whole search; a missing
   * `moadim.json` only leaves out the festivals. The query is matched and
   * echoed as received, untrimmed.
   */
  function Search(q: Option<string>, store: Store): Response {
    if q.None? || Utf16Length(Trim(q.value)) < 2 then BadRequest(ShortQueryMessage)
    else if TypesFile !in store.lists then ServerError(SearchFailedMessage)
    else
      if "Torah" in store.lists[TypesFile] && SedarimFile !in store.lists then ServerError(SearchFailedMessage)
      else
        var results := ListedResults(store, q.value);
        Found(results, |results|, q.value)
  }

  /** The Torah results when Torah is listed, then the festival results when festivals and their listing are there. */
  function ListedResults(store: Store, query: string): seq<SearchResult>
    requires TypesFile in store.lists
    requires "Torah" in store.lists[TypesFile] ==> SedarimFile in store.lists
  {
    var types := store.lists[TypesFile];
    var torah := if "Torah" in types then SedarimResults(store, query, store.lists[SedarimFile]) else [];
    var moadim :=
      if "Moadim" in types && MoadimFile in store.lists then MoadimResults(store, query, store.lists[MoadimFile])
      else [];
    torah + moadim
  }

  // ---------------------------------------------------------------------------
  // The handler as it runs
  // ---------------------------------------------------------------------------

  /** The per-item checks: title, then summary, then the passages until the first that matches. */
  method MatchDvar(dvar: Item, query: string) returns (hit: Option<Hit>)
    ensures hit == MatchItem(dvar, query)
  {
    if FieldMatches(dvar.title, query) {
      return Some(Hit(TitleMatch, dvar.title));
    }
    if FieldMatches(dvar.summary, query) {
      return Some(Hit(SummaryMatch, dvar.summary));
    }
    for k := 0 to |dvar.contents|
      invariant forall j :: 0 <= j < k ==> !FieldMatches(dvar.contents[j].content, query)
    {
      var passage := dvar.contents[k];
      if FieldMatches(passage.content, query) {
        return Some(Hit(ContentMatch, passage.content));
      }
    }
    hit := None;
  }

  /** The loop over one item file's items, pushing one result per matching item. */
  method SearchSection(results0: seq<SearchResult>, dvarim: seq<Item>, query: string,
                       category: Category, seder: Option<string>, parsha: string)
    returns (results: seq<SearchResult>)
    ensures results == results0 + SectionResults(dvarim, query, category, seder, parsha)
  {
    results := results0;
    for k := 0 to |dvarim|
      invariant results == results0 + SectionResults(dvarim[..k], query, category, seder, parsha)
    {
      assert dvarim[..k + 1][..k] == dvarim[..k];
      var dvar := dvarim[k];
      var hit := MatchDvar(dvar, query);
      if hit.Some? {
        results := results + [SearchResult(dvar, category, seder, parsha, hit.value.matchType, hit.value.matchText)];
      }
    }
    assert dvarim[..|dvarim|] == dvarim;
  }

  /** The loop over one division's sections; a section whose item file is missing is skipped. */
  method SearchDivision(results0: seq<SearchResult>, store: Store, query: string, seder: string, parshiot: seq<string>)
    returns (results: seq<SearchResult>)
    ensures results == results0 + ParshiotResults(store, query, seder, parshiot)
  {
    results := results0;
    for j := 0 to |parshiot|
      invariant results == results0 + ParshiotResults(store, query, seder, parshiot[..j])
    {
      assert parshiot[..j + 1][..j] == parshiot[..j];
      var parsha := parshiot[j];
      var contentFile := TorahContentFile(seder, parsha);
      if contentFile in store.items {
        results := SearchSection(results, store.items[contentFile], query, Torah, Some(seder), parsha);
      }
    }
    assert parshiot[..|parshiot|] == parshiot;
  }

  /** The loop over the divisions; a division whose section listing is missing is skipped. */
  method SearchTorah(store: Store, query: string, sedarim: seq<string>) returns (results: seq<SearchResult>)
    ensures results == SedarimResults(store, query, sedarim)
  {
    results := [];
    for i := 0 to |sedarim|
      invariant results == SedarimResults(store, query, sedarim[..i])
    {
      assert sedarim[..i + 1][..i] == sedarim[..i];
      var seder := sedarim[i];
      if ParshiotFile(seder) in store.lists {
        results := SearchDivision(results, store, query, seder, store.lists[ParshiotFile(seder)]);
      }
    }
    assert sedarim[..|sedarim|] == sedarim;
  }

  /** The loop over the festivals; a festival whose item file is missing is skipped. */
  method SearchMoadim(results0: seq<SearchResult>, store: Store, query: string, moadim: seq<string>)
    returns (results: seq<SearchResult>)
    ensures results == results0 + MoadimResults(store, query, moadim)
  {
    results := results0;
    for i := 0 to |moadim|
      invariant results == results0 + MoadimResults(store, query, moadim[..i])
    {
      assert moadim[..i + 1][..i] == moadim[..i];
      var moed := moadim[i];
      var contentFile := MoadimContentFile(moed);
      if contentFile in store.items {
        results := SearchSection(results, store.items[contentFile], query, Moadim, None, moed);
      }
    }
    assert moadim[..|moadim|] == moadim;
  }

  /** The two walks, each over a category `types.json` lists. */
  method SearchListed(store: Store, query: string) returns (results: seq<SearchResult>)
    requires TypesFile in store.lists
    requires "Torah" in store.lists[TypesFile] ==> SedarimFile in store.lists
    ensures results == ListedResults(store, query)
  {
    var types := store.lists[TypesFile];
    results := [];
    if "Torah" in types {
      results := SearchTorah(store, query, store.lists[SedarimFile]);
    }
    if "Moadim" in types && MoadimFile in store.lists {
      results := SearchMoadim(results, store, query, store.lists[MoadimFile]);
    }
  }

  /** `GET`: the guard, the two failures that end in status 500, the walks and the envelope. */
  method Get(q: Option<string>, store: Store) returns (resp: Response)
    ensures resp == Search(q, store)
  {
    if q.None? || Utf16Length(Trim(q.value)) < 2 {
      return BadRequest(ShortQueryMessage);
    }
    var query := q.value;
    if TypesFile !in store.lists {
      return ServerError(SearchFailedMessage);
    }
    var types := store.lists[TypesFile];
    if "Torah" in types && SedarimFile !in store.lists {
      return ServerError(SearchFailedMessage);
    }
    var results := SearchListed(store, query);
    return Found(results, |results|, query);
  }
}
