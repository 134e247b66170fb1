/**
 * What the row fold promises about the data it builds: a skipped row changes
 * nothing, an accepted row touches only its own section, an item's title and
 * summary are filled once and then kept, passages are only ever appended, and
 * items keep the position at which they were first created.
 */
module IngestProperties {
  import opened Wrappers
  import opened Strings
  import opened Snapshot
  import opened Ingest

  // ---------------------------------------------------------------------------
  // Skipped rows
  // ---------------------------------------------------------------------------

  /**
   * A row without an item id or without a text cell, with an unknown type, or
   * with a blank key for its category leaves the whole state as it was.
   */
  lemma SkippedRowChangesNothing(st: BuildState, row: Row)
    ensures !Truthy(row.dvarTorahId) || row.text.None? ==> Step(st, row) == st
    ensures RowType(row) != "torah" && RowType(row) != "moadim" ==> Step(st, row) == st
    ensures RowType(row) == "torah" && (Trim(OrEmpty(row.seder)) == "" || Trim(OrEmpty(row.parsha)) == "") ==>
              Step(st, row) == st
    ensures RowType(row) == "moadim" && Trim(OrEmpty(row.moadim)) == "" ==> Step(st, row) == st
  {
  }

  // ---------------------------------------------------------------------------
  // One accepted row
  // ---------------------------------------------------------------------------

  /**
   * An accepted row registers its keys and changes its own section only; every
   * other section, every other division's record, and the other category's
   * Set and dictionary stay as they were.
   */
  lemma StepTouchesOneSection(st: BuildState, row: Row)
    requires Classify(row).Success?
    ensures var rec := Classify(row).value;
      var st' := Step(st, row);
      && SectionItems(st', rec.key) == UpdateSection(SectionItems(st, rec.key), rec)
      && (forall k :: k != rec.key ==> SectionItems(st', k) == SectionItems(st, k))
      && (match rec.key
          case TorahKey(s, p) =>
            && st'.sedarimKeys == AddKey(st.sedarimKeys, s)
            && st'.sedarimContent[s].parshiot == AddKey(SederAt(st.sedarimContent, s).parshiot, p)
            && st'.sedarimContent.Keys == st.sedarimContent.Keys + {s}
            && st'.sedarimContent[s].contentByParsha.Keys == SederAt(st.sedarimContent, s).contentByParsha.Keys + {p}
            && (forall t :: t in st.sedarimContent && t != s ==> st'.sedarimContent[t] == st.sedarimContent[t])
            && st'.moadimKeys == st.moadimKeys && st'.moadimContent == st.moadimContent
          case MoadimKey(m) =>
            && st'.moadimKeys == AddKey(st.moadimKeys, m)
            && st'.moadimContent.Keys == st.moadimContent.Keys + {m}
            && st'.sedarimKeys == st.sedarimKeys && st'.sedarimContent == st.sedarimContent)
  {
    var rec := Classify(row).value;
    PutSectionTouchesOneSection(st, rec.key, UpdateSection(SectionItems(st, rec.key), rec));
  }

  /** Storing a section's items changes that section and its key registrations, and nothing else. */
  lemma PutSectionTouchesOneSection(st: BuildState, key: SectionKey, items: seq<Item>)
    ensures var st' := PutSection(st, key, items);
      && SectionItems(st', key) == items
      && (forall k :: k != key ==> SectionItems(st', k) == SectionItems(st, k))
      && (match key
          case TorahKey(s, p) =>
            && st'.sedarimKeys == AddKey(st.sedarimKeys, s)
            && st'.sedarimContent[s].parshiot == AddKey(SederAt(st.sedarimContent, s).parshiot, p)
            && st'.sedarimContent.Keys == st.sedarimContent.Keys + {s}
            && st'.sedarimContent[s].contentByParsha.Keys == SederAt(st.sedarimContent, s).contentByParsha.Keys + {p}
            && (forall t :: t in st.sedarimContent && t != s ==> st'.sedarimContent[t] == st.sedarimContent[t])
            && st'.moadimKeys == st.moadimKeys && st'.moadimContent == st.moadimContent
          case MoadimKey(m) =>
            && st'.moadimKeys == AddKey(st.moadimKeys, m)
            && st'.moadimContent.Keys == st.moadimContent.Keys + {m}
            && st'.sedarimKeys == st.sedarimKeys && st'.sedarimContent == st.sedarimContent)
  {
    var st' := PutSection(st, key, items);
    forall k | k != key ensures SectionItems(st', k) == SectionItems(st, k) {
      if key.TorahKey? && k.TorahKey? && k.seder == key.seder {
        assert k.parsha != key.parsha;
      }
    }
  }

  /**
   * The effect of an accepted row on the items of its section: the item with
   * the row's id is updated where it stands, or created at the end; the first
   * non-empty title and summary win; a Torah passage is appended exactly when
   * it is accepted, a festival passage always; all other items are untouched.
   */
  lemma UpdateSectionEffect(items: seq<Item>, rec: Record)
    ensures var r := UpdateSection(items, rec);
      var i := FindItem(items, rec.id);
      var cur := CurrentItem(items, rec);
      var added := Passage(NewPassageId(cur, rec.paragraphId), rec.text);
      && |r| == (if i < |items| then |items| else |items| + 1)
      && FindItem(r, rec.id) == i && i < |r|
      && (forall j :: 0 <= j < |items| && j != i ==> r[j] == items[j])
      && r[i].id == rec.id
      && r[i].title == (if i < |items| && items[i].title != "" then items[i].title else rec.title)
      && r[i].summary == (if i < |items| && items[i].summary != "" then items[i].summary else rec.summary)
      && (i < |items| ==> cur == items[i])
      && (i == |items| ==> cur.contents == [])
      && (rec.key.TorahKey? ==>
            r[i].contents == cur.contents + (if TorahPassageAccepted(cur, rec.paragraphId, rec.text) then [added] else []))
      && (rec.key.MoadimKey? ==> r[i].contents == cur.contents + [added])
  {
    var r := UpdateSection(items, rec);
    var i := FindItem(items, rec.id);
    var cur := CurrentItem(items, rec);
    var merged := MergeFields(cur, rec.title, rec.summary);
    MergeKeepsPassages(cur, rec.title, rec.summary);
    assert TorahPassageAccepted(merged, rec.paragraphId, rec.text) == TorahPassageAccepted(cur, rec.paragraphId, rec.text);
    assert NewPassageId(merged, rec.paragraphId) == NewPassageId(cur, rec.paragraphId);
    if rec.key.TorahKey? {
      var u := AddTorahPassage(merged, rec.paragraphId, rec.text);
      if TorahPassageAccepted(cur, rec.paragraphId, rec.text) {
        assert u.contents == cur.contents + [Passage(NewPassageId(cur, rec.paragraphId), rec.text)];
      } else {
        assert u.contents == cur.contents;
      }
    }
    assert FindItem(r, rec.id) == i by {
      FindItemStable(items, r, rec.id, i);
    }
  }

  /** Replacing or appending the item with a given id keeps where the lookup finds it. */
  lemma FindItemStable(items: seq<Item>, r: seq<Item>, id: string, i: nat)
    requires i == FindItem(items, id) && i < |r| && r[i].id == id
    requires forall j :: 0 <= j < |items| && j != i ==> j < |r| && r[j] == items[j]
    ensures FindItem(r, id) == i
  {
  }

  /** A Torah row whose text is blank still creates its item and merges its title and summary, but adds no passage. */
  lemma BlankTorahTextAddsNoPassage(items: seq<Item>, rec: Record)
    requires rec.key.TorahKey? && Trim(rec.text) == ""
    ensures var r := UpdateSection(items, rec);
      var i := FindItem(items, rec.id);
      && i < |r| && r[i].id == rec.id
      && r[i].contents == (if i < |items| then items[i].contents else [])
  {
    UpdateSectionEffect(items, rec);
  }

  // ---------------------------------------------------------------------------
  // Many rows
  // ---------------------------------------------------------------------------

  /** What a later row may do to an item: its id stays, a non-empty title or summary stays, passages are only appended. */
  predicate Extends(a: Item, b: Item) {
    && b.id == a.id
    && (a.title != "" ==> b.title == a.title)
    && (a.summary != "" ==> b.summary == a.summary)
    && a.contents <= b.contents
  }

  /** Every item of a keeps its position in b and is only extended there; b may have more items at the end. */
  predicate SectionGrows(a: seq<Item>, b: seq<Item>) {
    |a| <= |b| && forall i :: 0 <= i < |a| ==> Extends(a[i], b[i])
  }

  /** Every section of st grows into the same section of st'. */
  ghost predicate StateGrows(st: BuildState, st': BuildState) {
    forall k :: SectionGrows(SectionItems(st, k), SectionItems(st', k))
  }

  lemma SectionGrowsTransitive(a: seq<Item>, b: seq<Item>, c: seq<Item>)
    requires SectionGrows(a, b) && SectionGrows(b, c)
    ensures SectionGrows(a, c)
  {
    forall i | 0 <= i < |a| ensures Extends(a[i], c[i]) {
      assert Extends(a[i], b[i]) && Extends(b[i], c[i]);
    }
  }

  lemma StateGrowsTransitive(st1: BuildState, st2: BuildState, st3: BuildState)
    requires StateGrows(st1, st2) && StateGrows(st2, st3)
    ensures StateGrows(st1, st3)
  {
    forall k ensures SectionGrows(SectionItems(st1, k), SectionItems(st3, k)) {
      SectionGrowsTransitive(SectionItems(st1, k), SectionItems(st2, k), SectionItems(st3, k));
    }
  }

  /** One accepted row only extends its section. */
  lemma UpdateSectionGrows(items: seq<Item>, rec: Record)
    ensures SectionGrows(items, UpdateSection(items, rec))
  {
    UpdateSectionEffect(items, rec);
    var i := FindItem(items, rec.id);
    if i < |items| {
      var r := UpdateSection(items, rec);
      assert Extends(items[i], r[i]);
    }
  }

  /** Storing a grown section grows the state. */
  lemma PutSectionGrows(st: BuildState, key: SectionKey, items: seq<Item>)
    requires SectionGrows(SectionItems(st, key), items)
    ensures StateGrows(st, PutSection(st, key, items))
  {
    PutSectionTouchesOneSection(st, key, items);
    forall k ensures SectionGrows(SectionItems(st, k), SectionItems(PutSection(st, key, items), k)) {
      if k != key {
        SectionGrowsReflexive(SectionItems(st, k));
      }
    }
  }

  lemma SectionGrowsReflexive(a: seq<Item>)
    ensures SectionGrows(a, a)
  {
  }

  lemma StateGrowsReflexive(st: BuildState)
    ensures StateGrows(st, st)
  {
    forall k ensures SectionGrows(SectionItems(st, k), SectionItems(st, k)) {
      SectionGrowsReflexive(SectionItems(st, k));
    }
  }

  lemma StepGrows(st: BuildState, row: Row)
    ensures StateGrows(st, Step(st, row))
  {
    match Classify(row) {
      case Failure(_) =>
        StateGrowsReflexive(st);
      case Success(rec) =>
        var items := UpdateSection(SectionItems(st, rec.key), rec);
        UpdateSectionGrows(SectionItems(st, rec.key), rec);
        PutSectionGrows(st, rec.key, items);
    }
  }

  /**
   * Across any sequence of rows, an item never moves and is never removed,
   * its title and summary once non-empty are never replaced, and its passages
   * are only appended to.
   */
  lemma {:induction false} IngestRowsGrows(st: BuildState, rows: seq<Row>)
    ensures StateGrows(st, IngestRows(st, rows))
    decreases |rows|
  {
    if rows == [] {
      StateGrowsReflexive(st);
    } else {
      var before := IngestRows(st, rows[..|rows| - 1]);
      IngestRowsGrows(st, rows[..|rows| - 1]);
      StepGrows(before, rows[|rows| - 1]);
      StateGrowsTransitive(st, before, IngestRows(st, rows));
    }
  }

  /** The same across all the files: a later file only fills and extends what earlier files built. */
  lemma {:induction false} IngestFilesGrows(st: BuildState, files: seq<Option<seq<Row>>>)
    ensures StateGrows(st, IngestFiles(st, files))
    decreases |files|
  {
    if files == [] {
      StateGrowsReflexive(st);
    } else {
      var before := IngestFiles(st, files[..|files| - 1]);
      IngestFilesGrows(st, files[..|files| - 1]);
      match files[|files| - 1] {
        case None =>
        case Some(rows) =>
          IngestRowsGrows(before, rows);
          StateGrowsTransitive(st, before, IngestFiles(st, files));
      }
    }
  }

  /** A title or summary that is non-empty after some rows is the one the item keeps after any further rows. */
  lemma TitleNeverReplaced(st: BuildState, rows: seq<Row>, k: SectionKey, i: nat)
    requires i < |SectionItems(st, k)|
    ensures i < |SectionItems(IngestRows(st, rows), k)|
    ensures var a := SectionItems(st, k)[i];
      var b := SectionItems(IngestRows(st, rows), k)[i];
      && b.id == a.id
      && (a.title != "" ==> b.title == a.title)
      && (a.summary != "" ==> b.summary == a.summary)
  {
    IngestRowsGrows(st, rows);
    assert SectionGrows(SectionItems(st, k), SectionItems(IngestRows(st, rows), k));
  }

  // ---------------------------------------------------------------------------
  // The built corpus
  // ---------------------------------------------------------------------------

  /**
   * After all the files, no Torah item has two passages with equal content or
   * a repeated supplied passage id, and no section has two items with one id.
   */
  lemma BuiltSectionsDeduplicated(files: seq<Option<seq<Row>>>, k: SectionKey)
    ensures var items := SectionItems(IngestFiles(EmptyState, files), k);
      && (forall i, j :: 0 <= i < j < |items| ==> items[i].id != items[j].id)
      && (k.TorahKey? ==> forall i :: 0 <= i < |items| ==> TorahPassagesValid(items[i]))
  {
    EmptyStateValid();
    IngestFilesValid(EmptyState, files);
    var st := IngestFiles(EmptyState, files);
    match k {
      case TorahKey(s, p) =>
        if s in st.sedarimContent {
          assert SederValid(st.sedarimContent[s]);
        }
      case MoadimKey(m) =>
    }
  }

  /**
   * Passage ids are not unique in general: a supplied id that happens to look
   * made up (`<id>_p2`) is produced again for the next passage without an id.
   */
  lemma MadeUpIdCanRepeatSuppliedId(d: string, a: string, b: string)
    requires Trim(a) != "" && Trim(b) != "" && a != b
    ensures var it := AddTorahPassage(AddTorahPassage(Item(d, "", "", []), SynthId(d, 2), a), "", b);
      |it.contents| == 2 && it.contents[0].id == SynthId(d, 2) && it.contents[1].id == SynthId(d, 2)
  {
    assert SynthId(d, 2) != "" by {
      assert |SynthId(d, 2)| >= 2;
    }
    FirstPassageTaken(Item(d, "", "", []), SynthId(d, 2), a);
    SecondPassageTaken(Item(d, "", "", [Passage(SynthId(d, 2), a)]), b);
  }

  lemma FirstPassageTaken(it: Item, pid: string, text: string)
    requires it.contents == [] && pid != "" && Trim(text) != ""
    ensures AddTorahPassage(it, pid, text) == it.(contents := [Passage(pid, text)])
  {
    assert !HasPassageId(it, pid);
    assert !HasPassageContent(it, text);
  }

  lemma SecondPassageTaken(it: Item, text: string)
    requires |it.contents| == 1 && it.contents[0].content != text && Trim(text) != ""
    ensures AddTorahPassage(it, "", text) == it.(contents := it.contents + [Passage(SynthId(it.id, 2), text)])
  {
    assert !HasPassageContent(it, text);
  }
}
