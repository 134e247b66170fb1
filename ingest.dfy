/**
 * The row fold of the ingestion script, as functions on values: how one CSV
 * row is classified, and how an accepted row changes the nested dictionaries
 * division -> section -> item -> passages.
 */
module Ingest {
  import opened Wrappers
  import opened Strings
  import opened Sorting
  import opened Snapshot

  // ---------------------------------------------------------------------------
  // Rows and their classification
  // ---------------------------------------------------------------------------

  /**
   * One CSV row as the parser delivers it with a header line and no dynamic
   * typing: every cell is a string, and a column the row does not have is
   * undefined.
   */
  datatype Row = Row(
    rowType: Option<string>,
    dvarTorahId: Option<string>,
    text: Option<string>,
    hebrewTitle: Option<string>,
    hebrewSummary: Option<string>,
    paragraphId: Option<string>,
    seder: Option<string>,
    parsha: Option<string>,
    moadim: Option<string>)

  /** JavaScript truthiness of a cell: defined and not the empty string. */
  predicate Truthy(cell: Option<string>) {
    cell.Some? && cell.value != ""
  }

  /** `cell || ''` */
  function OrEmpty(cell: Option<string>): string {
    if cell.Some? then cell.value else ""
  }

  /** `(row.type || '').toLowerCase().trim()` */
  function RowType(row: Row): string {
    Trim(Lower(OrEmpty(row.rowType)))
  }

  /** Where an accepted row goes: a Torah section inside a division, or a festival. */
  datatype SectionKey = TorahKey(seder: string, parsha: string) | MoadimKey(moed: string)

  /** The fields of an accepted row that the fold uses. `paragraphId` is "" when absent. */
  datatype Record = Record(
    key: SectionKey, id: string, text: string, title: string, summary: string, paragraphId: string)

  /** Why a row was skipped. */
  datatype Rejection = MissingIdOrText | MissingSederOrParsha | MissingMoed | UnknownType

  /**
   * Classifies a row. A row is used only when it has a non-empty item id, a
   * defined text cell, and either type "torah" with non-blank division and
   * section keys or type "moadim" with a non-blank festival key; the keys are
   * stored trimmed.
   */
  function Classify(row: Row): (r: Result<Record, Rejection>)
    ensures r.Success? <==>
      && Truthy(row.dvarTorahId) && row.text.Some?
      && (|| (RowType(row) == "torah" && Trim(OrEmpty(row.seder)) != "" && Trim(OrEmpty(row.parsha)) != "")
          || (RowType(row) == "moadim" && Trim(OrEmpty(row.moadim)) != ""))
    ensures r.Success? ==>
      && r.value.id == row.dvarTorahId.value
      && r.value.text == row.text.value
      && r.value.title == OrEmpty(row.hebrewTitle)
      && r.value.summary == OrEmpty(row.hebrewSummary)
      && r.value.paragraphId == OrEmpty(row.paragraphId)
      && (r.value.key.TorahKey? <==> RowType(row) == "torah")
      && (r.value.key.TorahKey? ==>
            r.value.key == TorahKey(Trim(OrEmpty(row.seder)), Trim(OrEmpty(row.parsha))))
      && (r.value.key.MoadimKey? ==> r.value.key == MoadimKey(Trim(OrEmpty(row.moadim))))
  {
    if !Truthy(row.dvarTorahId) || row.text.None? then Failure(MissingIdOrText)
    else
      var make := (key: SectionKey) =>
        Record(key, row.dvarTorahId.value, row.text.value, OrEmpty(row.hebrewTitle),
               OrEmpty(row.hebrewSummary), OrEmpty(row.paragraphId));
      if RowType(row) == "torah" then
        var seder := Trim(OrEmpty(row.seder));
        var parsha := Trim(OrEmpty(row.parsha));
        if seder == "" || parsha == "" then Failure(MissingSederOrParsha)
        else Success(make(TorahKey(seder, parsha)))
      else if RowType(row) == "moadim" then
        var moed := Trim(OrEmpty(row.moadim));
        if moed == "" then Failure(MissingMoed)
        else Success(make(MoadimKey(moed)))
      else Failure(UnknownType)
  }

  /** A key that is stored is trimmed and not empty. */
  predicate IsStoredKey(k: string) {
    k != "" && Trim(k) == k
  }

  /** Every key of a section is stored trimmed and non-empty. */
  predicate KeysStored(key: SectionKey) {
    match key
    case TorahKey(s, p) => IsStoredKey(s) && IsStoredKey(p)
    case MoadimKey(m) => IsStoredKey(m)
  }

  /** The keys of an accepted row are non-empty and already trimmed. */
  lemma AcceptedKeysTrimmed(row: Row)
    requires Classify(row).Success?
    ensures KeysStored(Classify(row).value.key)
  {
    TrimIdempotent(OrEmpty(row.seder));
    TrimIdempotent(OrEmpty(row.parsha));
    TrimIdempotent(OrEmpty(row.moadim));
  }

  // ---------------------------------------------------------------------------
  // Build state
  // ---------------------------------------------------------------------------

  /** `sedarimContent[seder]`: the Set of section keys and the sections' item dictionaries. */
  datatype Seder = Seder(parshiot: seq<string>, contentByParsha: map<string, seq<Item>>)

  /**
   * The state of the fold. A JavaScript Set is a duplicate-free sequence in
   * insertion order; an item dictionary is the sequence of its items in
   * creation order (an item's key is its id).
   */
  datatype BuildState = BuildState(
    sedarimKeys: seq<string>,
    sedarimContent: map<string, Seder>,
    moadimKeys: seq<string>,
    moadimContent: map<string, seq<Item>>)

  const EmptyState := BuildState([], map[], [], map[])

  /** `set.add(k)` */
  function AddKey(keys: seq<string>, k: string): (r: seq<string>)
    ensures Elems(r) == Elems(keys) + {k}
    ensures NoDup(keys) ==> NoDup(r)
    ensures keys <= r
  {
    if k in keys then keys else keys + [k]
  }

  /** Position of the item with the given id, or |items| when there is none. */
  function FindItem(items: seq<Item>, id: string): (i: nat)
    ensures i <= |items|
    ensures i < |items| ==> items[i].id == id
    ensures forall j :: 0 <= j < i ==> items[j].id != id
  {
    if items == [] || items[0].id == id then 0 else 1 + FindItem(items[1..], id)
  }

  /** `${dvarTorahId}_p${n}` */
  function SynthId(dvarId: string, n: nat): string {
    dvarId + "_p" + NatToString(n)
  }

  /** First non-empty value wins: a field is only ever filled while it is still empty. */
  function MergeFields(it: Item, title: string, summary: string): Item {
    it.(title := if it.title == "" && title != "" then title else it.title,
        summary := if it.summary == "" && summary != "" then summary else it.summary)
  }

  predicate HasPassageId(it: Item, pid: string) {
    exists k | 0 <= k < |it.contents| :: it.contents[k].id == pid
  }

  predicate HasPassageContent(it: Item, text: string) {
    exists k | 0 <= k < |it.contents| :: it.contents[k].content == text
  }

  /** The id a new passage receives: the supplied paragraph id, or one made from its position. */
  function NewPassageId(it: Item, paragraphId: string): string {
    if paragraphId != "" then paragraphId else SynthId(it.id, |it.contents| + 1)
  }

  /** A Torah passage is taken when its text is not blank and neither its id nor its text is already there. */
  predicate TorahPassageAccepted(it: Item, paragraphId: string, text: string) {
    && Trim(text) != ""
    && !(paragraphId != "" && HasPassageId(it, paragraphId))
    && !HasPassageContent(it, text)
  }

  /**
   * What holds of every Torah item: no two passages with equal content, no
   * blank passage, and a passage that repeats an earlier passage's id is one
   * whose id was made up from its position (a supplied id is never repeated).
   */
  predicate TorahPassagesValid(it: Item) {
    && (forall i, j :: 0 <= i < j < |it.contents| ==> it.contents[i].content != it.contents[j].content)
    && (forall i, j :: 0 <= i < j < |it.contents| && it.contents[i].id == it.contents[j].id ==>
          it.contents[j].id == SynthId(it.id, j + 1))
    && (forall i :: 0 <= i < |it.contents| ==> Trim(it.contents[i].content) != "")
  }

  /** The Torah passage rule: at most one passage is appended, exactly when it is accepted. */
  function AddTorahPassage(it: Item, paragraphId: string, text: string): (r: Item)
    ensures r.id == it.id && r.title == it.title && r.summary == it.summary
    ensures it.contents <= r.contents
    ensures |r.contents| == |it.contents| + (if TorahPassageAccepted(it, paragraphId, text) then 1 else 0)
    ensures |r.contents| > |it.contents| ==>
              r.contents[|it.contents|] == Passage(NewPassageId(it, paragraphId), text)
  {
    if Trim(text) == "" then it
    else
      var isDuplicateId := paragraphId != "" && HasPassageId(it, paragraphId);
      var isDuplicateContent := HasPassageContent(it, text);
      if !isDuplicateId && !isDuplicateContent then
        it.(contents := it.contents + [Passage(NewPassageId(it, paragraphId), text)])
      else it
  }

  /** The Torah passage rule keeps an item's passages free of repeated content and repeated supplied ids. */
  lemma AddTorahPassageValid(it: Item, paragraphId: string, text: string)
    requires TorahPassagesValid(it)
    ensures TorahPassagesValid(AddTorahPassage(it, paragraphId, text))
  {
    var r := AddTorahPassage(it, paragraphId, text);
    var n := |it.contents|;
    if |r.contents| > n {
      var added := Passage(NewPassageId(it, paragraphId), text);
      var cs := r.contents;
      assert cs == it.contents + [added];
      assert !HasPassageContent(it, text);
      assert paragraphId != "" ==> !HasPassageId(it, paragraphId);
      assert Trim(text) != "";
      forall i, j | 0 <= i < j < |cs| ensures cs[i].content != cs[j].content {
        if j == n {
          assert cs[i] == it.contents[i];
        } else {
          assert cs[i] == it.contents[i] && cs[j] == it.contents[j];
        }
      }
      forall i, j | 0 <= i < j < |cs| && cs[i].id == cs[j].id ensures cs[j].id == SynthId(r.id, j + 1) {
        if j == n {
          assert cs[i] == it.contents[i];
        } else {
          assert cs[i] == it.contents[i] && cs[j] == it.contents[j];
        }
      }
      forall i | 0 <= i < |cs| ensures Trim(cs[i].content) != "" {
        if i < n {
          assert cs[i] == it.contents[i];
        }
      }
    }
  }

  /** The festival passage rule: the passage is always appended. */
  function AddMoadimPassage(it: Item, paragraphId: string, text: string): (r: Item)
    ensures r.id == it.id && r.title == it.title && r.summary == it.summary
    ensures |r.contents| == |it.contents| + 1 && r.contents[..|it.contents|] == it.contents
    ensures r.contents[|it.contents|] == Passage(NewPassageId(it, paragraphId), text)
  {
    it.(contents := it.contents + [Passage(NewPassageId(it, paragraphId), text)])
  }

  /** The item an accepted row is merged into: the existing one, or a new one made from the row. */
  function CurrentItem(items: seq<Item>, rec: Record): Item {
    var i := FindItem(items, rec.id);
    if i < |items| then items[i] else Item(rec.id, rec.title, rec.summary, [])
  }

  /** Locate or create the row's item, merge its title and summary, then add its passage. */
  function UpdateSection(items: seq<Item>, rec: Record): seq<Item> {
    var i := FindItem(items, rec.id);
    var merged := MergeFields(CurrentItem(items, rec), rec.title, rec.summary);
    var updated :=
      if rec.key.TorahKey? then AddTorahPassage(merged, rec.paragraphId, rec.text)
      else AddMoadimPassage(merged, rec.paragraphId, rec.text);
    if i < |items| then items[i := updated] else items + [updated]
  }

  /** One iteration of the row loop: a rejected row changes nothing. */
  function Step(st: BuildState, row: Row): BuildState {
    match Classify(row)
    case Failure(_) => st
    case Success(rec) => Apply(st, rec)
  }

  /** `sedarimContent[seder]`, created empty when missing. */
  function SederAt(sedarim: map<string, Seder>, s: string): Seder {
    if s in sedarim then sedarim[s] else Seder([], map[])
  }

  /** An item dictionary of a key map, created empty when missing. */
  function ItemsAt(sections: map<string, seq<Item>>, k: string): seq<Item> {
    if k in sections then sections[k] else []
  }

  /** Register the section key with the seder and store the section's items under it. */
  function PutParsha(seder: Seder, p: string, items: seq<Item>): Seder {
    Seder(AddKey(seder.parshiot, p), seder.contentByParsha[p := items])
  }

  /** Register the keys of a section, creating what is missing, and store its items. */
  function PutSection(st: BuildState, key: SectionKey, items: seq<Item>): BuildState {
    match key
    case TorahKey(s, p) =>
      st.(sedarimKeys := AddKey(st.sedarimKeys, s),
          sedarimContent := st.sedarimContent[s := PutParsha(SederAt(st.sedarimContent, s), p, items)])
    case MoadimKey(m) =>
      st.(moadimKeys := AddKey(st.moadimKeys, m), moadimContent := st.moadimContent[m := items])
  }

  /** The effect of an accepted row: register its keys, then update its section. */
  function Apply(st: BuildState, rec: Record): BuildState {
    PutSection(st, rec.key, UpdateSection(SectionItems(st, rec.key), rec))
  }

  /** The row loop over one file's rows. */
  function IngestRows(st: BuildState, rows: seq<Row>): BuildState
    decreases |rows|
  {
    if rows == [] then st else Step(IngestRows(st, rows[..|rows| - 1]), rows[|rows| - 1])
  }

  /** The file loop: a file that does not exist is skipped. */
  function IngestFiles(st: BuildState, files: seq<Option<seq<Row>>>): BuildState
    decreases |files|
  {
    if files == [] then st
    else
      var before := IngestFiles(st, files[..|files| - 1]);
      match files[|files| - 1]
      case None => before
      case Some(rows) => IngestRows(before, rows)
  }

  /** The items of one section, or none when the section does not exist. */
  function SectionItems(st: BuildState, key: SectionKey): seq<Item> {
    match key
    case TorahKey(s, p) =>
      if s in st.sedarimContent && p in st.sedarimContent[s].contentByParsha
      then st.sedarimContent[s].contentByParsha[p] else []
    case MoadimKey(m) =>
      if m in st.moadimContent then st.moadimContent[m] else []
  }

  // ---------------------------------------------------------------------------
  // The invariant of the fold
  // ---------------------------------------------------------------------------

  /** A Set of keys: no repeats, every key trimmed and non-empty. */
  predicate KeysValid(keys: seq<string>) {
    NoDup(keys) && forall k :: k in keys ==> IsStoredKey(k)
  }

  predicate SectionValid(items: seq<Item>, torah: bool) {
    && (forall i, j :: 0 <= i < j < |items| ==> items[i].id != items[j].id)
    && (torah ==> forall i :: 0 <= i < |items| ==> TorahPassagesValid(items[i]))
  }

  predicate SederValid(seder: Seder) {
    && KeysValid(seder.parshiot)
    && Elems(seder.parshiot) == seder.contentByParsha.Keys
    && (forall p :: p in seder.contentByParsha ==> SectionValid(seder.contentByParsha[p], true))
  }

  predicate SedarimValid(sedarim: map<string, Seder>) {
    forall s :: s in sedarim ==> SederValid(sedarim[s])
  }

  /**
   * The key Sets list exactly the dictionaries' keys, item ids are unique per
   * section, and every Torah item satisfies the passage rule.
   */
  predicate Inv(st: BuildState) {
    && KeysValid(st.sedarimKeys)
    && Elems(st.sedarimKeys) == st.sedarimContent.Keys
    && SedarimValid(st.sedarimContent)
    && KeysValid(st.moadimKeys)
    && Elems(st.moadimKeys) == st.moadimContent.Keys
    && (forall m :: m in st.moadimContent ==> SectionValid(st.moadimContent[m], false))
  }

  lemma EmptyStateValid()
    ensures Inv(EmptyState)
  {
  }

  lemma MergeKeepsPassages(it: Item, title: string, summary: string)
    ensures MergeFields(it, title, summary).contents == it.contents
    ensures MergeFields(it, title, summary).id == it.id
    ensures TorahPassagesValid(it) ==> TorahPassagesValid(MergeFields(it, title, summary))
  {
  }

  /** Updating a section keeps item ids unique and, for Torah, the passage rule. */
  lemma UpdateSectionValid(items: seq<Item>, rec: Record)
    requires SectionValid(items, rec.key.TorahKey?)
    ensures SectionValid(UpdateSection(items, rec), rec.key.TorahKey?)
  {
    var i := FindItem(items, rec.id);
    var cur := CurrentItem(items, rec);
    var merged := MergeFields(cur, rec.title, rec.summary);
    MergeKeepsPassages(cur, rec.title, rec.summary);
    var r := UpdateSection(items, rec);
    assert |r| == |items| || |r| == |items| + 1;
    forall a | 0 <= a < |r| ensures r[a].id == (if a < |items| then items[a].id else rec.id) {
    }
    if rec.key.TorahKey? {
      assert TorahPassagesValid(cur);
      AddTorahPassageValid(merged, rec.paragraphId, rec.text);
    }
  }

  /** Adding a key to a Set and to the dictionary it lists keeps the two in step. */
  lemma KeyedAddValid<V>(keys: seq<string>, m: map<string, V>, k: string, v: V)
    requires KeysValid(keys) && Elems(keys) == m.Keys && IsStoredKey(k)
    ensures KeysValid(AddKey(keys, k)) && Elems(AddKey(keys, k)) == m[k := v].Keys
  {
    var r := AddKey(keys, k);
    forall x | x in r ensures IsStoredKey(x) {
      assert x in Elems(r);
      if x != k {
        assert x in Elems(keys);
      }
    }
    assert m[k := v].Keys == m.Keys + {k};
  }

  lemma PutParshaValid(seder: Seder, p: string, items: seq<Item>)
    requires SederValid(seder) && IsStoredKey(p) && SectionValid(items, true)
    ensures SederValid(PutParsha(seder, p, items))
  {
    KeyedAddValid(seder.parshiot, seder.contentByParsha, p, items);
  }

  /** Storing a valid section under stored keys keeps the invariant. */
  lemma PutSectionValid(st: BuildState, key: SectionKey, items: seq<Item>)
    requires Inv(st) && KeysStored(key) && SectionValid(items, key.TorahKey?)
    ensures Inv(PutSection(st, key, items))
  {
    match key {
      case TorahKey(s, p) => PutTorahSectionValid(st, s, p, items);
      case MoadimKey(m) => PutMoadimSectionValid(st, m, items);
    }
  }

  lemma PutTorahSectionValid(st: BuildState, s: string, p: string, items: seq<Item>)
    requires Inv(st) && IsStoredKey(s) && IsStoredKey(p) && SectionValid(items, true)
    ensures Inv(PutSection(st, TorahKey(s, p), items))
  {
    var seder := SederAt(st.sedarimContent, s);
    assert SederValid(seder);
    PutParshaValid(seder, p, items);
    KeyedAddValid(st.sedarimKeys, st.sedarimContent, s, PutParsha(seder, p, items));
    SedarimValidAfter(st.sedarimContent, s, PutParsha(seder, p, items));
  }

  lemma PutMoadimSectionValid(st: BuildState, m: string, items: seq<Item>)
    requires Inv(st) && IsStoredKey(m) && SectionValid(items, false)
    ensures Inv(PutSection(st, MoadimKey(m), items))
  {
    KeyedAddValid(st.moadimKeys, st.moadimContent, m, items);
  }

  lemma SedarimValidAfter(sedarim: map<string, Seder>, s: string, seder: Seder)
    requires SedarimValid(sedarim) && SederValid(seder)
    ensures SedarimValid(sedarim[s := seder])
  {
  }

  /** The section a key names is valid in a valid state. */
  lemma SectionItemsValid(st: BuildState, key: SectionKey)
    requires Inv(st)
    ensures SectionValid(SectionItems(st, key), key.TorahKey?)
  {
    match key {
      case TorahKey(s, p) =>
        if s in st.sedarimContent {
          assert SederValid(st.sedarimContent[s]);
        }
      case MoadimKey(m) =>
    }
  }

  /** One row keeps the invariant. */
  lemma StepValid(st: BuildState, row: Row)
    requires Inv(st)
    ensures Inv(Step(st, row))
  {
    match Classify(row)
    case Failure(_) =>
    case Success(rec) =>
      AcceptedKeysTrimmed(row);
      SectionItemsValid(st, rec.key);
      UpdateSectionValid(SectionItems(st, rec.key), rec);
      PutSectionValid(st, rec.key, UpdateSection(SectionItems(st, rec.key), rec));
  }

  /** Any number of rows keeps the invariant. */
  lemma {:induction false} IngestRowsValid(st: BuildState, rows: seq<Row>)
    requires Inv(st)
    ensures Inv(IngestRows(st, rows))
    decreases |rows|
  {
    if rows != [] {
      IngestRowsValid(st, rows[..|rows| - 1]);
      StepValid(IngestRows(st, rows[..|rows| - 1]), rows[|rows| - 1]);
    }
  }

  lemma {:induction false} IngestFilesValid(st: BuildState, files: seq<Option<seq<Row>>>)
    requires Inv(st)
    ensures Inv(IngestFiles(st, files))
    decreases |files|
  {
    if files != [] {
      IngestFilesValid(st, files[..|files| - 1]);
      if files[|files| - 1].Some? {
        IngestRowsValid(IngestFiles(st, files[..|files| - 1]), files[|files| - 1].value);
      }
    }
  }
}
