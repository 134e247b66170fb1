# Dvar Torah corpus: ingestion and search, modelled in Dafny

This project models the two moving parts of a small digital library of
Hebrew commentaries ("dvarim Torah"):

* **The ingestion script** (`processAllData`). It reads CSV rows, one
  passage per row. Each row is either a Torah row, keyed by a division
  (*seder*) and a section (*parsha*), or a festival row, keyed by a
  festival (*moed*). The script folds the rows into dictionaries of items
  (`{dvar_torah_id, title, summary, contents}`) and into Sets of keys. It
  then writes `types.json`, the sorted key listings `sedarim.json`,
  `parshiot-Torah-<seder>.json` and `moadim.json`, and one item file per
  section or festival, in `Object.values` order.
* **The search endpoint** (`GET /api/search?q=`). It refuses a query shorter
  than two characters once trimmed. Otherwise it walks the written files in
  listing order: Torah divisions, their sections and their items, then the
  festivals and their items. It reports every item whose title, summary or
  one of its passages contains the query, ignoring case. Each item is
  reported once, with the first field that matches (title, then summary,
  then the first matching passage). The response also carries the count and
  the query.

The processed-data directory is a value: `Snapshot.Store` maps a file name
either to a list of keys or to a list of items, and a name that is absent is
a file that does not exist. CSV files are given as a sequence of
`Option<seq<Row>>`, where `None` is a file that does not exist.

Modules:

| module | file | what it holds |
|---|---|---|
| `Wrappers` | wrappers.dfy | `Option` and `Result` |
| `Strings` | strings.dfy | JavaScript `trim`, ASCII `toLowerCase`, `includes`, UTF-16 `length`, the default sort comparison, `String(n)` |
| `Sorting` | sorting.dfy | `Array.prototype.sort()` on strings and the key-listing lemmas |
| `Snapshot` | snapshot.dfy | items, passages, the store, and the file-naming scheme |
| `Objects` | objects.dfy | `Object.values` order: array-index keys first in ascending order, then the other keys in insertion order |
| `Ingest` | ingest.dfy | the row fold as functions, and its invariant |
| `IngestProperties` | ingest_properties.dfy | what the fold promises about what it builds |
| `Emission` | emission.dfy | the save phase as functions, and what it writes |
| `ProcessData` | process_data.dfy | the script as it runs: a `CorpusBuilder` object updated in place, the row and file loops, and the writing loops |
| `SearchRoute` | search.dfy | the search as functions, and the handler's loops proved equal to them |
| `SearchProperties` | search_properties.dfy | guard, failures, envelope, match priority, soundness, completeness and order of results |
| `SearchOrder` | search_order.dfy | each listed item file reported once, and results in listing order |
| `CorpusSearch` | corpus_search.dfy | the search over a corpus the build wrote |

The imperative members (`ProcessData.ProcessAllData`, the `CorpusBuilder`
methods, `SearchRoute.Get` and its loops) each have an `ensures` that ties
them to a value-level function. The properties proved about those functions
therefore hold of the code as it runs.

### Behaviour worth knowing

* **The echoed query is untrimmed.** The query is trimmed only for the
  length check. It is matched and echoed exactly as received, so `" ab"`
  passes the guard but does not match a title `"ab"`
  (`SearchProperties.UntrimmedQueryExample`).
* **Results come in traversal order.** Every Torah result comes before every
  festival result (`SearchProperties.TorahResultsComeFirst`); divisions,
  sections and festivals come in the sorted order of their listings
  (`SearchOrder.ResultsInListingOrder`); within a file the results are the
  matching items in file order
  (`SearchProperties.SectionResultsAreMatchingItems`). The match type labels
  a result but does not reorder it.
* **Passage ids are not unique.** A Torah passage whose supplied id is
  already present is dropped; no fresh id is made for it. The
  `Date.now()` branch of the id choice can never run, because it needs an
  id that is a duplicate and such a passage never reaches it. A passage
  without an id gets `<item id>_p<n>`, and that can repeat a supplied id
  (`IngestProperties.MadeUpIdCanRepeatSuppliedId`). What does hold is that
  no content is repeated and a passage that repeats an earlier id always
  carries a made-up id
  (`Ingest.TorahPassagesValid`, `IngestProperties.BuiltSectionsDeduplicated`).
* **Festival passages are not deduplicated or checked for blank text.**
  Every accepted festival row appends a passage, even an empty one.
* **Only some missing files are errors.** A missing `moadim.json` only leaves
  out the festivals (`SearchProperties.MissingFestivalListingIsNotAFailure`).
  A missing `types.json`, or a missing `sedarim.json` while Torah is listed,
  gives status 500 (`SearchProperties.FailureCases`). A missing section
  listing or item file is skipped.
* **Item file names can collide.** A division key containing `-` can give two
  sections the same item file name, e.g. division `a-b` with section `c` and
  division `a` with section `b-c` (`Snapshot.TorahContentFileCollision`).
  The later write then replaces the earlier one. The round trip from build to
  search (`CorpusSearch`) is proved when no two divisions' sections share an
  item file name (`Emission.DistinctItemFiles`), which holds whenever no
  division key contains `-` (`Emission.NoHyphenDistinctItemFiles`).

## Model

| member | source | states |
|---|---|---|
| `Strings.TrimStart` | scripts/process-data.mjs:85-86 | the result is a suffix of the input, what was dropped is all JavaScript white space, and the result does not start with white space |
| `Strings.TrimEnd` | scripts/process-data.mjs:85-86 | the result is a prefix of the input, what was dropped is all JavaScript white space, and the result does not end with white space |
| `Strings.TrimIsSlice` | scripts/process-data.mjs:85-86 | `trim()` returns a slice of its input with only white space cut off on either side |
| `Strings.TrimEmptyIff` | scripts/process-data.mjs:108 | a text trims to `""` exactly when every character of it is white space: the blank-passage test in both directions |
| `Strings.TrimIdempotent` | scripts/process-data.mjs:85-86 | trimming a trimmed key changes nothing |
| `Strings.Utf16Length` | app/api/search/route.ts:34 | `length` counts at least one and at most two UTF-16 units per character |
| `Strings.StrLessIrreflexive` | scripts/process-data.mjs:174 | the default sort comparison never puts a string before itself |
| `Strings.StrLessTransitive` | scripts/process-data.mjs:174 | the default sort comparison is transitive |
| `Strings.StrLessTotal` | scripts/process-data.mjs:174 | of two different strings, one sorts before the other |
| `Strings.NatToString` | scripts/process-data.mjs:124-126 | `String(n)` is a canonical decimal numeral whose value is n |
| `Strings.CanonicalDecimalRoundTrip` | scripts/process-data.mjs:187 | every canonical decimal numeral is what `String` prints for its value: `String(n)` of the parsed number gives the numeral back |
| `Sorting.SortStrings` | scripts/process-data.mjs:174 | `sort()` returns an ascending permutation of its input |
| `Sorting.SortedKeyListing` | scripts/process-data.mjs:174 | sorting a Set's entries gives a strictly ascending list of exactly those entries |
| `Sorting.StrictlySortedUnique` | scripts/process-data.mjs:174 | two strictly ascending lists with the same entries are equal |
| `Sorting.SortedListingIndependentOfOrder` | scripts/process-data.mjs:174 | a written key listing does not depend on the order in which the keys were first seen |
| `Snapshot.ParshiotFileInjective` | scripts/process-data.mjs:179 | each division has its own section-listing file |
| `Snapshot.MoadimContentFileInjective` | scripts/process-data.mjs:207 | each festival has its own item file |
| `Snapshot.TorahContentFileInjective` | scripts/process-data.mjs:186 | two sections have different item files when no division key contains `-` |
| `Snapshot.TorahContentFileSameDivision` | scripts/process-data.mjs:186 | within one division, different sections always have different item files |
| `Snapshot.TorahContentFileCollision` | scripts/process-data.mjs:186 | without that restriction, two different sections can share an item file name |
| `Snapshot.ListingNamesDistinct` | scripts/process-data.mjs:179 | a section listing never overwrites `types.json`, `sedarim.json` or `moadim.json` |
| `Snapshot.ContentNamesDistinct` | scripts/process-data.mjs:186 | a Torah item file never has a festival item file's name |
| `Objects.ObjectValuesOrder` | scripts/process-data.mjs:187 | `Object.values` returns every item once; array-index keys come first in ascending numeric order, then the other keys in insertion order |
| `Objects.ObjectValuesNamedKeys` | scripts/process-data.mjs:187 | with no array-index key, `Object.values` is insertion order |
| `Ingest.Classify` | scripts/process-data.mjs:66-152 | a row is used exactly when it has a truthy item id, a text cell, and a known type with non-blank keys; the record carries the row's cells, and its keys are trimmed |
| `Ingest.AcceptedKeysTrimmed` | scripts/process-data.mjs:85-86 | every key an accepted row stores is non-empty and trimmed |
| `Ingest.AddKey` | scripts/process-data.mjs:88 | `Set.add`: the entries become the old entries plus the key, order is kept, and no entry is ever repeated |
| `Ingest.FindItem` | scripts/process-data.mjs:98 | the dictionary lookup finds the item with that id, or reports that there is none |
| `Ingest.AddTorahPassage` | scripts/process-data.mjs:107-132 | id, title and summary are kept; a passage is appended exactly when its text is not blank and neither its id nor its text is already there, with the supplied id or `<id>_p<n>` |
| `Ingest.AddTorahPassageValid` | scripts/process-data.mjs:112-132 | adding a Torah passage keeps an item free of repeated contents and blank passages, with every repeated id a made-up one |
| `Ingest.AddMoadimPassage` | scripts/process-data.mjs:164-167 | appends exactly one passage, with the supplied id or `<item id>_p<n>` and the row's text, and keeps the item's id, title, summary and earlier passages |
| `Ingest.MergeKeepsPassages` | scripts/process-data.mjs:104-105 | merging a title and summary keeps the id and the passages |
| `Ingest.EmptyStateValid` | scripts/process-data.mjs:44-48 | the empty dictionaries and Sets satisfy the fold's invariant |
| `Ingest.UpdateSectionValid` | scripts/process-data.mjs:98-167 | updating a section keeps its item ids unique and its Torah items valid |
| `Ingest.KeyedAddValid` | scripts/process-data.mjs:88-91 | adding a key to a Set and its dictionary keeps them listing the same keys without repeats |
| `Ingest.PutSectionValid` | scripts/process-data.mjs:88-97 | registering keys and storing a valid section keeps the invariant |
| `Ingest.StepValid` | scripts/process-data.mjs:65-168 | one row keeps the invariant: the Sets list exactly the dictionaries' keys, item ids are unique per section, and Torah passages obey the passage rule |
| `Ingest.IngestRowsValid` | scripts/process-data.mjs:65-169 | any sequence of rows keeps the invariant |
| `Ingest.IngestFilesValid` | scripts/process-data.mjs:56-170 | any sequence of CSV files, present or missing, keeps the invariant |
| `IngestProperties.SkippedRowChangesNothing` | scripts/process-data.mjs:73-151 | a row without id or text, with an unknown type, or with a blank key leaves the whole state unchanged |
| `IngestProperties.StepTouchesOneSection` | scripts/process-data.mjs:77-167 | an accepted row registers its keys and changes only its own section: every other section of its division, every other division's record, and the other category's Set and dictionary stay as they were |
| `IngestProperties.PutSectionTouchesOneSection` | scripts/process-data.mjs:88-97 | storing a section changes that section and its key registrations; every other section, every other division's record, and the other category stay as they were |
| `IngestProperties.UpdateSectionEffect` | scripts/process-data.mjs:98-167 | the row's item is updated in place or created at the end; the first non-empty title and summary win; a Torah passage is appended exactly when accepted, a festival passage always; other items are untouched |
| `IngestProperties.BlankTorahTextAddsNoPassage` | scripts/process-data.mjs:98-110 | a blank Torah text still creates its item but adds no passage |
| `IngestProperties.UpdateSectionGrows` | scripts/process-data.mjs:98-167 | one row only extends its section: items keep position and id, filled fields stay, passages are only appended |
| `IngestProperties.StepGrows` | scripts/process-data.mjs:65-168 | one row only extends every section |
| `IngestProperties.IngestRowsGrows` | scripts/process-data.mjs:65-169 | across any rows, no item moves or disappears, filled titles and summaries are kept, and passages are only appended |
| `IngestProperties.IngestFilesGrows` | scripts/process-data.mjs:56-170 | a later CSV file only fills in and extends what earlier files built |
| `IngestProperties.TitleNeverReplaced` | scripts/process-data.mjs:104-105 | a non-empty title or summary is the one the item keeps after any further rows |
| `IngestProperties.BuiltSectionsDeduplicated` | scripts/process-data.mjs:112-132 | after all files, no section has two items with one id, and no Torah item repeats a content or has a repeated passage id other than a made-up one |
| `IngestProperties.MadeUpIdCanRepeatSuppliedId` | scripts/process-data.mjs:124-126 | a supplied id that looks made up (`<id>_p2`) is produced again for the next passage without an id |
| `Emission.CategoryListing` | scripts/process-data.mjs:173-198 | a written key listing is strictly sorted and lists exactly its dictionary's keys, `[]` when there are none |
| `Emission.TorahListings` | scripts/process-data.mjs:172-198 | the Torah part writes `sedarim.json` and one sorted section listing per division, and no other listing |
| `Emission.MoadimListing` | scripts/process-data.mjs:200-217 | the festival part adds the sorted `moadim.json` and changes no other listing |
| `Emission.TorahItemFileNames` | scripts/process-data.mjs:183-190 | the Torah part writes item files for the sections of its divisions and no other |
| `Emission.EmittedListings` | scripts/process-data.mjs:172-217 | the listings written are `types.json`, the division and festival listings and one section listing per division, each sorted and exact |
| `Emission.EmittedTorahFiles` | scripts/process-data.mjs:176-193 | each section's item file holds that section's items in `Object.values` order, provided no two divisions' sections share an item file name |
| `Emission.NoHyphenDistinctItemFiles` | scripts/process-data.mjs:186 | division keys without `-` keep sections of different divisions from sharing an item file name |
| `Emission.EmittedMoadimFiles` | scripts/process-data.mjs:204-212 | each festival's item file holds that festival's items in `Object.values` order |
| `Emission.EmittedItemFileNames` | scripts/process-data.mjs:172-217 | the item files written are exactly one per section and one per festival |
| `ProcessData.SomePassageHasId` | scripts/process-data.mjs:113-115 | the loop reports whether some passage has the id |
| `ProcessData.SomePassageHasContent` | scripts/process-data.mjs:117-119 | the loop reports whether some passage has the text |
| `ProcessData.UpdateItems` | scripts/process-data.mjs:98-167 | locating or creating the item, merging fields and adding the passage gives `UpdateSection` |
| `ProcessData.AddPassage` | scripts/process-data.mjs:107-167 | the Torah branch adds the passage as `AddTorahPassage` says, the festival branch as `AddMoadimPassage` says |
| `ProcessData.CorpusBuilder.constructor` | scripts/process-data.mjs:44-48 | the builder starts empty and valid |
| `ProcessData.CorpusBuilder.ProcessRow` | scripts/process-data.mjs:65-168 | one row changes the builder as `Step` says and keeps its invariant |
| `ProcessData.CorpusBuilder.ApplyRecord` | scripts/process-data.mjs:88-167 | an accepted row changes the builder as `Apply` says |
| `ProcessData.CorpusBuilder.AddTorahRecord` | scripts/process-data.mjs:88-132 | a Torah row registers its division and section, creating them when missing, and updates its section |
| `ProcessData.CorpusBuilder.AddMoadimRecord` | scripts/process-data.mjs:152-167 | a festival row registers its festival, creating it when missing, and updates its items |
| `ProcessData.CorpusBuilder.EmitFiles` | scripts/process-data.mjs:172-217 | the save phase writes exactly what `Emit` says for the builder's state |
| `ProcessData.UpdateDivision` | scripts/process-data.mjs:93-97 | registering the section and updating its dictionary gives `PutParsha` of the updated section |
| `ProcessData.WriteSectionFiles` | scripts/process-data.mjs:183-191 | the inner save loop writes what `WriteParshiot` says |
| `ProcessData.ProcessAllData` | scripts/process-data.mjs:35-220 | the files written are `Emit` of the fold over every present CSV file, so all `Ingest`, `IngestProperties` and `Emission` lemmas apply to them |
| `SearchRoute.FirstMatchingPassage` | app/api/search/route.ts:94-108 | the position found holds a matching passage and no earlier passage matches; none matches when it is past the end |
| `SearchRoute.MatchDvar` | app/api/search/route.ts:66-108 | the per-item checks with their early exits give `MatchItem` |
| `SearchRoute.SearchSection` | app/api/search/route.ts:66-109 | the item loop appends `SectionResults` for its file |
| `SearchRoute.SearchDivision` | app/api/search/route.ts:57-114 | the section loop appends `ParshiotResults`, skipping missing item files |
| `SearchRoute.SearchTorah` | app/api/search/route.ts:47-119 | the division loop produces `SedarimResults`, skipping divisions without a listing |
| `SearchRoute.SearchMoadim` | app/api/search/route.ts:122-186 | the festival loop appends `MoadimResults`, skipping missing item files |
| `SearchRoute.SearchListed` | app/api/search/route.ts:42-186 | the two walks over the listed categories give `ListedResults` |
| `SearchRoute.Get` | app/api/search/route.ts:30-196 | the handler answers exactly as `Search` specifies |
| `SearchProperties.QueryGuard` | app/api/search/route.ts:30-36 | status 400 exactly when the query is absent or under two UTF-16 units once trimmed, with its fixed message |
| `SearchProperties.QueryLengthExamples` | app/api/search/route.ts:34 | `""` and `" a "` are refused; `"ab"` is searched |
| `SearchProperties.FailureCases` | app/api/search/route.ts:43-49 | status 500 exactly when `types.json` is missing, or Torah is listed and `sedarim.json` is missing, with its fixed message |
| `SearchProperties.MissingFestivalListingIsNotAFailure` | app/api/search/route.ts:121-186 | a missing `moadim.json` still gives status 200, with Torah results only |
| `SearchProperties.Envelope` | app/api/search/route.ts:188-192 | a 200 response carries `count` equal to the number of results and the query as received |
| `SearchProperties.UntrimmedQueryExample` | app/api/search/route.ts:34-68 | `" ab"` passes the guard yet does not match the title `"ab"`: matching uses the untrimmed query |
| `SearchProperties.TitleMatchWins` | app/api/search/route.ts:67-78 | a matching title is reported whatever the summary and passages hold |
| `SearchProperties.MatchTypeMeaning` | app/api/search/route.ts:66-108 | title when the title matches; summary when it does and the title does not; content otherwise, with the first matching passage's text; the reported text is never empty, since an empty field matches no query |
| `SearchProperties.ItemMatchesIff` | app/api/search/route.ts:66-108 | an item is reported exactly when its title, summary or some passage contains the query, ignoring case |
| `SearchProperties.HitTextHoldsQuery` | app/api/search/route.ts:68-104 | the reported text is non-empty and contains the query, ignoring case |
| `SearchProperties.MatchingItems` | app/api/search/route.ts:66-109 | the matching items of a file: exactly those items of the file that produce a hit |
| `SearchProperties.SectionResultsAreMatchingItems` | app/api/search/route.ts:66-109 | a file's results are its matching items, each once and in file order |
| `SearchProperties.SectionResultsSound` | app/api/search/route.ts:66-109 | each result of a file carries its labels, an item of the file and that item's own hit |
| `SearchProperties.SectionResultsComplete` | app/api/search/route.ts:66-109 | every matching item of a file is reported with its hit |
| `SearchProperties.ParshiotResultsSound` | app/api/search/route.ts:57-114 | each result of a division names one of its listed sections and reports an item of that section's file |
| `SearchProperties.ParshiotResultsComplete` | app/api/search/route.ts:57-114 | every matching item of a listed section with an item file is reported |
| `SearchProperties.SedarimResultsSound` | app/api/search/route.ts:51-118 | each Torah result names a listed division and a section in its listing |
| `SearchProperties.SedarimResultsComplete` | app/api/search/route.ts:51-118 | every matching item of a listed section of a listed division is reported |
| `SearchProperties.MoadimResultsSound` | app/api/search/route.ts:128-182 | each festival result names a listed festival and reports an item of its file |
| `SearchProperties.MoadimResultsComplete` | app/api/search/route.ts:128-182 | every matching item of a listed festival is reported |
| `SearchProperties.SearchResultsSound` | app/api/search/route.ts:42-186 | every result comes from a listed category and a listed section or festival, and reports an item of that file with its hit |
| `SearchProperties.TorahResultsComeFirst` | app/api/search/route.ts:46-186 | once a festival result appears, every later result is a festival result |
| `SearchProperties.SearchFindsTorahMatch` | app/api/search/route.ts:46-119 | a matching item of a listed section is in the response |
| `SearchProperties.SearchFindsFestivalMatch` | app/api/search/route.ts:121-186 | a matching item of a listed festival is in the response |
| `CorpusSearch.WrittenItemsAreSectionItems` | scripts/process-data.mjs:187 | a written item file holds exactly the items of its section |
| `CorpusSearch.BuiltCorpusSearchSucceeds` | app/api/search/route.ts:43-49 | over a corpus the build wrote, every accepted query gets status 200 |
| `CorpusSearch.BuiltCorpusResultsSound` | app/api/search/route.ts:42-186 | over a built corpus (provided no two divisions' sections share an item file name, `Emission.DistinctItemFiles`), every result is a matching item of a section or festival built from the rows |
| `CorpusSearch.BuiltCorpusFindsTorahItem` | app/api/search/route.ts:51-118 | over a built corpus (provided no two divisions' sections share an item file name, `Emission.DistinctItemFiles`), every matching item of a built section is found, labelled with its division and section |
| `CorpusSearch.BuiltCorpusFindsFestivalItem` | app/api/search/route.ts:122-186 | over a built corpus, every matching item of a built festival is found, labelled with its festival |
| `SearchOrder.Labelled` | app/api/search/route.ts:69-104 | the results carrying a given category, division and section: exactly those results, in order |
| `SearchOrder.ParshiotLabelled` | app/api/search/route.ts:57-114 | within one division's walk over a section listing without repeats, the results labelled with a section are its file's results if it is listed and has an item file, and none otherwise |
| `SearchOrder.SedarimLabelled` | app/api/search/route.ts:51-118 | within the Torah walk over a division listing without repeats, the results labelled with a division come only from that division's walk |
| `SearchOrder.MoadimLabelled` | app/api/search/route.ts:128-182 | within the festival walk over a listing without repeats, the results labelled with a festival are its file's results if it is listed and has an item file, and none otherwise |
| `SearchOrder.MatchingItemsNoDup` | app/api/search/route.ts:66-109 | a file without repeated items yields matching items without repeats |
| `SearchOrder.SectionReportedOnce` | app/api/search/route.ts:46-118 | when the listings repeat no key, the whole response's results labelled with a listed section are exactly that file's results, so each item is reported once |
| `SearchOrder.FestivalReportedOnce` | app/api/search/route.ts:121-186 | when the festival listing repeats no key, the whole response's results labelled with a listed festival are exactly that file's results |
| `SearchOrder.ParshiotResultsOrdered` | app/api/search/route.ts:57-114 | over a sorted section listing, a division's results come in ascending section order |
| `SearchOrder.MoadimResultsOrdered` | app/api/search/route.ts:128-182 | over a sorted festival listing, the festival results come in ascending festival order |
| `SearchOrder.SedarimResultsOrdered` | app/api/search/route.ts:51-118 | over a strictly ascending division listing with sorted section listings, Torah results come in ascending (division, section) order |
| `SearchOrder.ResultsInListingOrder` | app/api/search/route.ts:46-186 | over sorted listings, every result before a Torah result is a Torah result in (division, section) order not after it, and every result after a festival result is a festival result in ascending festival order |
| `CorpusSearch.WrittenItemsDistinct` | scripts/process-data.mjs:184-187 | an item file written from a section with distinct item ids repeats no item |
| `CorpusSearch.BuiltSectionReportedOnce` | app/api/search/route.ts:46-118 | over a built corpus (provided no two divisions' sections share an item file name, `Emission.DistinctItemFiles`), the results labelled with a built section are exactly its written file's matching items, in file order and each once |
| `CorpusSearch.BuiltFestivalReportedOnce` | app/api/search/route.ts:121-186 | over a built corpus, the results labelled with a built festival are exactly its written file's matching items, in file order and each once |
| `CorpusSearch.BuiltCorpusResultOrder` | app/api/search/route.ts:46-186 | over a built corpus, whose listings are written sorted, Torah results come in (division, section) order and festival results follow in festival order |

## Left out

- File I/O. Reading CSV files (`parseCsv`, Papa Parse), `fs` calls, JSON parsing and writing, and `ensureDir`/`emptyDir` are left out. The rows and the processed-data directory are parameters and results.
- Console logging and `process.exit` have no effect on the data and are left out.
- The HTTP layer (`NextRequest`, `NextResponse`) is reduced to the query parameter and a `Response` datatype: 400, 500 or 200.
- Strings.Lower: only ASCII letters are lower-cased. JavaScript's full Unicode case mapping is not modelled, so the model does not capture case-insensitive matches of non-ASCII letters. Hebrew has no case.
- JSON values of the wrong type are not modelled. This covers an item without `contents`, a non-string cell and malformed JSON. The store is typed, so the exceptions these raise mid-loop, and their catch blocks, are not modelled.
- The search does not model a read failing after a successful `stat`. A missing file is modelled as skipped, which is what both the `stat` check and the catch blocks produce.
- Dictionary keys that collide with `Object.prototype` members, such as `__proto__` and `constructor`, are not modelled. A dictionary is modelled as a plain map.
- The `Date.now()` id branch is modelled as unreachable, because the code only takes it for a duplicate id, and a duplicate id is dropped before reaching it.
- File names are modelled as the bare templates (`parshiot-Torah-<seder>.json`, `content-Torah-<seder>-<parsha>.json`, `content-Moadim-<moed>.json`); `path.join` normalisation is not modelled. A key containing `/` or `..` is therefore outside the model: such a key can resolve onto another file (a division `x/../sedarim` writes over `sedarim.json`), or name a directory that does not exist, so the write throws and the script exits. `Snapshot.ParshiotFileInjective`, `Snapshot.ListingNamesDistinct` and the other naming lemmas hold of the names, not of the resolved paths.
- Concurrency between the script and the endpoint is left out. The endpoint is modelled over a fixed directory snapshot.
- The page components, the browsing API routes and the rest of the site are not part of this model.
