/**
 * `processAllData` as the script runs it: a builder object whose dictionaries
 * and Sets are updated row by row in place, then written out file by file.
 * Every method is proved to do what the value-level definitions of the
 * `Ingest` and `Emission` modules say, so the properties proved there hold of
 * what the script writes.
 */
module ProcessData {
  import opened Wrappers
  import opened Strings
  import opened Sorting
  import opened Snapshot
  import opened Objects
  import opened Ingest
  import opened Emission

  /** `currentDvar.contents.some(existing => existing.passage_id === passageId)` */
  method SomePassageHasId(it: Item, pid: string) returns (found: bool)
    ensures found == HasPassageId(it, pid)
  {
    found := false;
    var k := 0;
    while k < |it.contents| && !found
      invariant 0 <= k <= |it.contents|
      invariant found <==> exists j | 0 <= j < k :: it.contents[j].id == pid
    {
      found := it.contents[k].id == pid;
      k := k + 1;
    }
  }

  /** `currentDvar.contents.some(existing => existing.passage_content === passageText)` */
  method SomePassageHasContent(it: Item, text: string) returns (found: bool)
    ensures found == HasPassageContent(it, text)
  {
    found := false;
    var k := 0;
    while k < |it.contents| && !found
      invariant 0 <= k <= |it.contents|
      invariant found <==> exists j | 0 <= j < k :: it.contents[j].content == text
    {
      found := it.contents[k].content == text;
      k := k + 1;
    }
  }

  /**
   * Locate or create the row's item in its section's dictionary, fill an empty
   * title or summary, then add the passage.
   */
  method UpdateItems(items: seq<Item>, rec: Record) returns (r: seq<Item>)
    ensures r == UpdateSection(items, rec)
  {
    var i := FindItem(items, rec.id);
    r := items;
    if i == |r| {
      r := r + [Item(rec.id, rec.title, rec.summary, [])];
    }
    var cur := r[i];
    if cur.title == "" && rec.title != "" {
      cur := cur.(title := rec.title);
    }
    if cur.summary == "" && rec.summary != "" {
      cur := cur.(summary := rec.summary);
    }
    assert cur == MergeFields(CurrentItem(items, rec), rec.title, rec.summary);
    cur := AddPassage(cur, rec);
    r := r[i := cur];
  }

  /**
   * Add the row's passage to its item: for Torah only when its text is not
   * blank and neither its id nor its text is there yet, for a festival always.
   */
  method AddPassage(cur: Item, rec: Record) returns (r: Item)
    ensures rec.key.TorahKey? ==> r == AddTorahPassage(cur, rec.paragraphId, rec.text)
    ensures rec.key.MoadimKey? ==> r == AddMoadimPassage(cur, rec.paragraphId, rec.text)
  {
    r := cur;
    if rec.key.TorahKey? {
      if Trim(rec.text) != "" {
        var isDuplicateId := false;
        if rec.paragraphId != "" {
          isDuplicateId := SomePassageHasId(cur, rec.paragraphId);
        }
        var isDuplicateContent := SomePassageHasContent(cur, rec.text);
        if !isDuplicateId && !isDuplicateContent {
          r := cur.(contents := cur.contents + [Passage(NewPassageId(cur, rec.paragraphId), rec.text)]);
        }
      }
    } else {
      r := cur.(contents := cur.contents + [Passage(NewPassageId(cur, rec.paragraphId), rec.text)]);
    }
  }

  /** The dictionaries and Sets `processAllData` fills while it reads the rows. */
  class CorpusBuilder {
    var sedarimKeys: seq<string>
    var sedarimContent: map<string, Seder>
    var moadimKeys: seq<string>
    var moadimContent: map<string, seq<Item>>

    function State(): BuildState
      reads this
    {
      BuildState(sedarimKeys, sedarimContent, moadimKeys, moadimContent)
    }

    ghost predicate Valid()
      reads this
    {
      Inv(State())
    }

    constructor ()
      ensures State() == EmptyState && Valid()
    {
      sedarimKeys := [];
      sedarimContent := map[];
      moadimKeys := [];
      moadimContent := map[];
      EmptyStateValid();
    }

    /** One iteration of the row loop. */
    method ProcessRow(row: Row)
      requires Valid()
      modifies this
      ensures Valid()
      ensures State() == Step(old(State()), row)
    {
      StepValid(State(), row);
      var rowType := Trim(Lower(OrEmpty(row.rowType)));
      if !Truthy(row.dvarTorahId) || row.text.None? {
        return;
      }
      var dvarTorahId := row.dvarTorahId.value;
      var passageText := row.text.value;
      var hebrewTitle := OrEmpty(row.hebrewTitle);
      var hebrewSummary := OrEmpty(row.hebrewSummary);
      var passageId := OrEmpty(row.paragraphId);
      var key: SectionKey;
      if rowType == "torah" {
        var sederKey := OrEmpty(row.seder);
        var parshaKey := OrEmpty(row.parsha);
        if Trim(sederKey) == "" || Trim(parshaKey) == "" {
          return;
        }
        key := TorahKey(Trim(sederKey), Trim(parshaKey));
      } else if rowType == "moadim" {
        var moedKey := OrEmpty(row.moadim);
        if Trim(moedKey) == "" {
          return;
        }
        key := MoadimKey(Trim(moedKey));
      } else {
        return;
      }
      var rec := Record(key, dvarTorahId, passageText, hebrewTitle, hebrewSummary, passageId);
      assert Classify(row) == Success(rec);
      ApplyRecord(rec);
    }

    /** Register an accepted row's keys, creating its division or festival and section when missing, and update its section. */
    method ApplyRecord(rec: Record)
      modifies this
      ensures State() == Apply(old(State()), rec)
    {
      match rec.key {
        case TorahKey(s, p) => AddTorahRecord(rec, s, p);
        case MoadimKey(m) => AddMoadimRecord(rec, m);
      }
    }

    method AddTorahRecord(rec: Record, s: string, p: string)
      requires rec.key == TorahKey(s, p)
      modifies this
      ensures State() == Apply(old(State()), rec)
    {
      ApplyTorahRecord(State(), rec, s, p);
      var seder := if s in sedarimContent then sedarimContent[s] else Seder([], map[]);
      seder := UpdateDivision(seder, p, rec);
      sedarimKeys := AddKey(sedarimKeys, s);
      sedarimContent := sedarimContent[s := seder];
    }

    method AddMoadimRecord(rec: Record, m: string)
      requires rec.key == MoadimKey(m)
      modifies this
      ensures State() == Apply(old(State()), rec)
    {
      ghost var before := State();
      moadimKeys := AddKey(moadimKeys, m);
      var items := if m in moadimContent then moadimContent[m] else [];
      assert items == SectionItems(before, rec.key);
      items := UpdateItems(items, rec);
      moadimContent := moadimContent[m := items];
      assert State() == PutSection(before, rec.key, items);
    }

    /** The save phase: `types.json`, then the Torah files, then the festival files. */
    method EmitFiles() returns (store: Store)
      ensures store == Emit(State())
    {
      store := InitialStore;
      if |sedarimKeys| > 0 {
        store := store.(lists := store.lists[SedarimFile := SortStrings(sedarimKeys)]);
        ghost var base := store;
        for i := 0 to |sedarimKeys|
          invariant store == WriteSedarim(base, sedarimKeys[..i], sedarimContent)
        {
          assert sedarimKeys[..i + 1][..i] == sedarimKeys[..i];
          var sederKey := sedarimKeys[i];
          if sederKey in sedarimContent {
            var seder := sedarimContent[sederKey];
            store := store.(lists := store.lists[ParshiotFile(sederKey) := SortStrings(seder.parshiot)]);
            store := WriteSectionFiles(store, sederKey, seder);
          }
        }
        assert sedarimKeys[..|sedarimKeys|] == sedarimKeys;
      } else {
        store := store.(lists := store.lists[SedarimFile := []]);
      }
      ghost var torah := store;
      assert torah == EmitTorah(InitialStore, sedarimKeys, sedarimContent);
      if |moadimKeys| > 0 {
        store := store.(lists := store.lists[MoadimFile := SortStrings(moadimKeys)]);
        ghost var base := store;
        for i := 0 to |moadimKeys|
          invariant store == WriteMoadim(base, moadimKeys[..i], moadimContent)
        {
          assert moadimKeys[..i + 1][..i] == moadimKeys[..i];
          var moedKey := moadimKeys[i];
          if moedKey in moadimContent {
            store := store.(items := store.items[MoadimContentFile(moedKey) := ObjectValues(moadimContent[moedKey])]);
          }
        }
        assert moadimKeys[..|moadimKeys|] == moadimKeys;
      } else {
        store := store.(lists := store.lists[MoadimFile := []]);
      }
    }
  }

  /** `Apply` for a Torah row, written as the updates the builder makes. */
  lemma ApplyTorahRecord(st: BuildState, rec: Record, s: string, p: string)
    requires rec.key == TorahKey(s, p)
    ensures var seder := SederAt(st.sedarimContent, s);
      Apply(st, rec) == st.(sedarimKeys := AddKey(st.sedarimKeys, s),
                            sedarimContent := st.sedarimContent[s :=
                              PutParsha(seder, p, UpdateSection(ItemsAt(seder.contentByParsha, p), rec))])
  {
    assert SectionItems(st, rec.key) == ItemsAt(SederAt(st.sedarimContent, s).contentByParsha, p);
  }

  /** Register the section with its division, creating its dictionary when missing, and update it. */
  method UpdateDivision(seder: Seder, p: string, rec: Record) returns (r: Seder)
    ensures r == PutParsha(seder, p, UpdateSection(ItemsAt(seder.contentByParsha, p), rec))
  {
    r := seder.(parshiot := AddKey(seder.parshiot, p));
    if p !in r.contentByParsha {
      r := r.(contentByParsha := r.contentByParsha[p := []]);
    }
    var items := r.contentByParsha[p];
    items := UpdateItems(items, rec);
    r := r.(contentByParsha := r.contentByParsha[p := items]);
  }

  /** The inner loop of the save phase: one item file per section of a division. */
  method WriteSectionFiles(store0: Store, sederKey: string, seder: Seder) returns (store: Store)
    ensures store == WriteParshiot(store0, sederKey, seder.parshiot, seder.contentByParsha)
  {
    store := store0;
    for j := 0 to |seder.parshiot|
      invariant store == WriteParshiot(store0, sederKey, seder.parshiot[..j], seder.contentByParsha)
    {
      assert seder.parshiot[..j + 1][..j] == seder.parshiot[..j];
      var parshaKey := seder.parshiot[j];
      if parshaKey in seder.contentByParsha {
        store := store.(items := store.items[TorahContentFile(sederKey, parshaKey) :=
                                               ObjectValues(seder.contentByParsha[parshaKey])]);
      }
    }
    assert seder.parshiot[..|seder.parshiot|] == seder.parshiot;
  }

  /**
   * `processAllData`: every row of every existing CSV file, in order, then the
   * save phase. A file that does not exist is `None`.
   */
  method ProcessAllData(csvFiles: seq<Option<seq<Row>>>) returns (store: Store)
    ensures store == Emit(IngestFiles(EmptyState, csvFiles))
  {
    var builder := new CorpusBuilder();
    for f := 0 to |csvFiles|
      invariant builder.Valid()
      invariant builder.State() == IngestFiles(EmptyState, csvFiles[..f])
    {
      assert csvFiles[..f + 1][..f] == csvFiles[..f];
      match csvFiles[f] {
        case None =>
        case Some(rows) =>
          ghost var start := builder.State();
          for r := 0 to |rows|
            invariant builder.Valid()
            invariant builder.State() == IngestRows(start, rows[..r])
          {
            assert rows[..r + 1][..r] == rows[..r];
            builder.ProcessRow(rows[r]);
          }
          assert rows[..|rows|] == rows;
      }
    }
    assert csvFiles[..|csvFiles|] == csvFiles;
    store := builder.EmitFiles();
  }
}
