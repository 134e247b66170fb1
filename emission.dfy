/**
 * The second half of the ingestion script: writing the built dictionaries out
 * as JSON files. Key listings are written sorted; every section and festival
 * gets a file of its items in `Object.values` order. Files are written one
 * after the other, so a later file of the same name replaces an earlier one.
 */
module Emission {
  import opened Strings
  import opened Sorting
  import opened Snapshot
  import opened Objects
  import opened Ingest

  /** The directory right after `types.json` has been written. */
  const InitialStore := Store(map[TypesFile := CategoryNames], map[])

  // ---------------------------------------------------------------------------
  // The writes, in the order the script performs them
  // ---------------------------------------------------------------------------

  /** One item file per section of a division, in the division's section order. */
  function WriteParshiot(store: Store, s: string, parshiot: seq<string>, byParsha: map<string, seq<Item>>): Store
    decreases |parshiot|
  {
    if parshiot == [] then store
    else
      var before := WriteParshiot(store, s, parshiot[..|parshiot| - 1], byParsha);
      var p := parshiot[|parshiot| - 1];
      if p in byParsha then before.(items := before.items[TorahContentFile(s, p) := ObjectValues(byParsha[p])])
      else before
  }

  /** Per division, in insertion order: its sorted section listing, then its item files. */
  function WriteSedarim(store: Store, keys: seq<string>, sedarim: map<string, Seder>): Store
    decreases |keys|
  {
    if keys == [] then store
    else
      var before := WriteSedarim(store, keys[..|keys| - 1], sedarim);
      var s := keys[|keys| - 1];
      if s in sedarim then
        WriteParshiot(before.(lists := before.lists[ParshiotFile(s) := SortStrings(sedarim[s].parshiot)]),
                      s, sedarim[s].parshiot, sedarim[s].contentByParsha)
      else before
  }

  /** `sedarim.json` (sorted, or `[]` when there is no division), then every division. */
  function EmitTorah(store: Store, keys: seq<string>, sedarim: map<string, Seder>): Store {
    if |keys| > 0 then WriteSedarim(store.(lists := store.lists[SedarimFile := SortStrings(keys)]), keys, sedarim)
    else store.(lists := store.lists[SedarimFile := []])
  }

  /** One item file per festival, in insertion order. */
  function WriteMoadim(store: Store, keys: seq<string>, moadim: map<string, seq<Item>>): Store
    decreases |keys|
  {
    if keys == [] then store
    else
      var before := WriteMoadim(store, keys[..|keys| - 1], moadim);
      var m := keys[|keys| - 1];
      if m in moadim then before.(items := before.items[MoadimContentFile(m) := ObjectValues(moadim[m])])
      else before
  }

  /** `moadim.json` (sorted, or `[]` when there is no festival), then every festival. */
  function EmitMoadim(store: Store, keys: seq<string>, moadim: map<string, seq<Item>>): Store {
    if |keys| > 0 then WriteMoadim(store.(lists := store.lists[MoadimFile := SortStrings(keys)]), keys, moadim)
    else store.(lists := store.lists[MoadimFile := []])
  }

  /** Everything the script writes for a built state. */
  function Emit(st: BuildState): Store {
    EmitMoadim(EmitTorah(InitialStore, st.sedarimKeys, st.sedarimContent), st.moadimKeys, st.moadimContent)
  }

  // ---------------------------------------------------------------------------
  // Names of the files written
  // ---------------------------------------------------------------------------

  function SectionFileNames(s: string, parshiot: seq<string>, byParsha: map<string, seq<Item>>): set<string> {
    set p | p in parshiot && p in byParsha :: TorahContentFile(s, p)
  }

  function ParshiotFileNames(keys: seq<string>, sedarim: map<string, Seder>): set<string> {
    set s | s in keys && s in sedarim :: ParshiotFile(s)
  }

  function MoadimFileNames(keys: seq<string>, moadim: map<string, seq<Item>>): set<string> {
    set m | m in keys && m in moadim :: MoadimContentFile(m)
  }

  lemma SectionFileNamesSnoc(s: string, parshiot: seq<string>, p: string, byParsha: map<string, seq<Item>>)
    ensures SectionFileNames(s, parshiot + [p], byParsha) ==
            SectionFileNames(s, parshiot, byParsha) + (if p in byParsha then {TorahContentFile(s, p)} else {})
  {
  }

  lemma ParshiotFileNamesSnoc(keys: seq<string>, s: string, sedarim: map<string, Seder>)
    ensures ParshiotFileNames(keys + [s], sedarim) ==
            ParshiotFileNames(keys, sedarim) + (if s in sedarim then {ParshiotFile(s)} else {})
  {
  }

  lemma MoadimFileNamesSnoc(keys: seq<string>, m: string, moadim: map<string, seq<Item>>)
    ensures MoadimFileNames(keys + [m], moadim) ==
            MoadimFileNames(keys, moadim) + (if m in moadim then {MoadimContentFile(m)} else {})
  {
  }

  // ---------------------------------------------------------------------------
  // What each fold writes
  // ---------------------------------------------------------------------------

  /** The item files of one division: one per listed section; every other file is kept. */
  lemma {:induction false} WriteParshiotNames(store: Store, s: string, parshiot: seq<string>, byParsha: map<string, seq<Item>>)
    ensures var r := WriteParshiot(store, s, parshiot, byParsha);
      && r.items.Keys == store.items.Keys + SectionFileNames(s, parshiot, byParsha)
      && (forall n :: n in store.items && n !in SectionFileNames(s, parshiot, byParsha) ==> r.items[n] == store.items[n])
    decreases |parshiot|
  {
    if parshiot != [] {
      var init := parshiot[..|parshiot| - 1];
      var p := parshiot[|parshiot| - 1];
      WriteParshiotNames(store, s, init, byParsha);
      assert parshiot == init + [p];
      SectionFileNamesSnoc(s, init, p, byParsha);
    }
  }

  /** Each listed section's item file holds its items in `Object.values` order. */
  lemma {:induction false} WriteParshiotContent(store: Store, s: string, parshiot: seq<string>, byParsha: map<string, seq<Item>>)
    ensures var r := WriteParshiot(store, s, parshiot, byParsha);
      forall p :: p in parshiot && p in byParsha ==>
        TorahContentFile(s, p) in r.items && r.items[TorahContentFile(s, p)] == ObjectValues(byParsha[p])
    decreases |parshiot|
  {
    if parshiot != [] {
      var init := parshiot[..|parshiot| - 1];
      var p := parshiot[|parshiot| - 1];
      WriteParshiotContent(store, s, init, byParsha);
      assert parshiot == init + [p];
      var r := WriteParshiot(store, s, parshiot, byParsha);
      forall q | q in parshiot && q in byParsha
        ensures TorahContentFile(s, q) in r.items && r.items[TorahContentFile(s, q)] == ObjectValues(byParsha[q])
      {
        TorahContentFileSameDivision(s, p, q);
      }
    }
  }

  /** Writing item files leaves the key listings alone. */
  lemma {:induction false} WriteParshiotKeepsLists(store: Store, s: string, parshiot: seq<string>, byParsha: map<string, seq<Item>>)
    ensures WriteParshiot(store, s, parshiot, byParsha).lists == store.lists
    decreases |parshiot|
  {
    if parshiot != [] {
      WriteParshiotKeepsLists(store, s, parshiot[..|parshiot| - 1], byParsha);
    }
  }

  /** The section listings written: one per division; every other key listing is kept. */
  lemma {:induction false} WriteSedarimListingNames(store: Store, keys: seq<string>, sedarim: map<string, Seder>)
    ensures var r := WriteSedarim(store, keys, sedarim);
      && r.lists.Keys == store.lists.Keys + ParshiotFileNames(keys, sedarim)
      && (forall n :: n in store.lists && n !in ParshiotFileNames(keys, sedarim) ==> r.lists[n] == store.lists[n])
    decreases |keys|
  {
    if keys != [] {
      var init := keys[..|keys| - 1];
      var s := keys[|keys| - 1];
      WriteSedarimListingNames(store, init, sedarim);
      assert keys == init + [s];
      ParshiotFileNamesSnoc(init, s, sedarim);
      var before := WriteSedarim(store, init, sedarim);
      if s in sedarim {
        var b' := before.(lists := before.lists[ParshiotFile(s) := SortStrings(sedarim[s].parshiot)]);
        WriteParshiotKeepsLists(b', s, sedarim[s].parshiot, sedarim[s].contentByParsha);
      }
    }
  }

  /** Each division's section listing holds its sections sorted. */
  lemma {:induction false} WriteSedarimListings(store: Store, keys: seq<string>, sedarim: map<string, Seder>)
    ensures var r := WriteSedarim(store, keys, sedarim);
      forall s :: s in keys && s in sedarim ==>
        ParshiotFile(s) in r.lists && r.lists[ParshiotFile(s)] == SortStrings(sedarim[s].parshiot)
    decreases |keys|
  {
    if keys != [] {
      var init := keys[..|keys| - 1];
      var s := keys[|keys| - 1];
      WriteSedarimListings(store, init, sedarim);
      assert keys == init + [s];
      var before := WriteSedarim(store, init, sedarim);
      if s in sedarim {
        var b' := before.(lists := before.lists[ParshiotFile(s) := SortStrings(sedarim[s].parshiot)]);
        WriteParshiotKeepsLists(b', s, sedarim[s].parshiot, sedarim[s].contentByParsha);
        forall t | t in keys && t in sedarim ensures
          ParshiotFile(t) in WriteSedarim(store, keys, sedarim).lists &&
          WriteSedarim(store, keys, sedarim).lists[ParshiotFile(t)] == SortStrings(sedarim[t].parshiot)
        {
          ParshiotFileInjective(s, t);
        }
      }
    }
  }

  /**
   * No two built sections of different divisions share an item file name.
   * Within one division the names always differ (`TorahContentFileSameDivision`);
   * across divisions they can clash once a key holds '-' (`TorahContentFileCollision`).
   */
  predicate DistinctItemFiles(sedarim: map<string, Seder>) {
    forall s, p, t, q ::
      s in sedarim && t in sedarim && s != t &&
      p in sedarim[s].contentByParsha && q in sedarim[t].contentByParsha ==>
        TorahContentFile(s, p) != TorahContentFile(t, q)
  }

  /** Division keys without '-' never give two divisions' sections the same item file. */
  lemma NoHyphenDistinctItemFiles(sedarim: map<string, Seder>)
    requires forall s :: s in sedarim ==> '-' !in s
    ensures DistinctItemFiles(sedarim)
  {
    forall s, p, t, q | s in sedarim && t in sedarim && s != t &&
      p in sedarim[s].contentByParsha && q in sedarim[t].contentByParsha
      ensures TorahContentFile(s, p) != TorahContentFile(t, q)
    {
      TorahContentFileInjective(s, p, t, q);
    }
  }

  /** The Torah item files: when no two divisions' sections share a name, every section has its own file. */
  lemma {:induction false} WriteSedarimContent(store: Store, keys: seq<string>, sedarim: map<string, Seder>)
    requires DistinctItemFiles(sedarim)
    ensures var r := WriteSedarim(store, keys, sedarim);
      forall s, p :: s in keys && s in sedarim && p in sedarim[s].parshiot && p in sedarim[s].contentByParsha ==>
        TorahContentFile(s, p) in r.items &&
        r.items[TorahContentFile(s, p)] == ObjectValues(sedarim[s].contentByParsha[p])
    decreases |keys|
  {
    if keys != [] {
      var init := keys[..|keys| - 1];
      var s := keys[|keys| - 1];
      WriteSedarimContent(store, init, sedarim);
      assert keys == init + [s];
      var before := WriteSedarim(store, init, sedarim);
      if s in sedarim {
        var b' := before.(lists := before.lists[ParshiotFile(s) := SortStrings(sedarim[s].parshiot)]);
        var names := SectionFileNames(s, sedarim[s].parshiot, sedarim[s].contentByParsha);
        WriteParshiotNames(b', s, sedarim[s].parshiot, sedarim[s].contentByParsha);
        WriteParshiotContent(b', s, sedarim[s].parshiot, sedarim[s].contentByParsha);
        var r := WriteSedarim(store, keys, sedarim);
        forall t, q | t in keys && t in sedarim && q in sedarim[t].parshiot && q in sedarim[t].contentByParsha
          ensures TorahContentFile(t, q) in r.items
          ensures r.items[TorahContentFile(t, q)] == ObjectValues(sedarim[t].contentByParsha[q])
        {
          if t != s {
            assert TorahContentFile(t, q) !in names by {
              forall q' | q' in sedarim[s].parshiot && q' in sedarim[s].contentByParsha
                ensures TorahContentFile(s, q') != TorahContentFile(t, q)
              {
              }
            }
          }
        }
      }
    }
  }

  /** The item files written across all divisions are exactly those of the listed sections. */
  lemma {:induction false} WriteSedarimFileNames(store: Store, keys: seq<string>, sedarim: map<string, Seder>)
    ensures var r := WriteSedarim(store, keys, sedarim);
      forall n :: n in r.items <==>
        n in store.items || exists s, p :: s in keys && s in sedarim && p in sedarim[s].parshiot &&
                                         p in sedarim[s].contentByParsha && n == TorahContentFile(s, p)
    decreases |keys|
  {
    if keys != [] {
      var init := keys[..|keys| - 1];
      var s := keys[|keys| - 1];
      WriteSedarimFileNames(store, init, sedarim);
      assert keys == init + [s];
      var before := WriteSedarim(store, init, sedarim);
      if s in sedarim {
        var b' := before.(lists := before.lists[ParshiotFile(s) := SortStrings(sedarim[s].parshiot)]);
        WriteParshiotNames(b', s, sedarim[s].parshiot, sedarim[s].contentByParsha);
      }
    }
  }

  /** The festival item files: one per listed festival; the key listings and every other file are kept. */
  lemma {:induction false} WriteMoadimNames(store: Store, keys: seq<string>, moadim: map<string, seq<Item>>)
    ensures var r := WriteMoadim(store, keys, moadim);
      && r.lists == store.lists
      && r.items.Keys == store.items.Keys + MoadimFileNames(keys, moadim)
      && (forall n :: n in store.items && n !in MoadimFileNames(keys, moadim) ==> r.items[n] == store.items[n])
    decreases |keys|
  {
    if keys != [] {
      var init := keys[..|keys| - 1];
      var m := keys[|keys| - 1];
      WriteMoadimNames(store, init, moadim);
      assert keys == init + [m];
      MoadimFileNamesSnoc(init, m, moadim);
    }
  }

  /** Each festival's item file holds its items in `Object.values` order. */
  lemma {:induction false} WriteMoadimContent(store: Store, keys: seq<string>, moadim: map<string, seq<Item>>)
    ensures var r := WriteMoadim(store, keys, moadim);
      forall m :: m in keys && m in moadim ==>
        MoadimContentFile(m) in r.items && r.items[MoadimContentFile(m)] == ObjectValues(moadim[m])
    decreases |keys|
  {
    if keys != [] {
      var init := keys[..|keys| - 1];
      var m := keys[|keys| - 1];
      WriteMoadimContent(store, init, moadim);
      assert keys == init + [m];
      forall t | t in keys && t in moadim
        ensures MoadimContentFile(t) in WriteMoadim(store, keys, moadim).items
        ensures WriteMoadim(store, keys, moadim).items[MoadimContentFile(t)] == ObjectValues(moadim[t])
      {
        MoadimContentFileInjective(m, t);
      }
    }
  }

  // ---------------------------------------------------------------------------
  // What the whole emission writes
  // ---------------------------------------------------------------------------

  /** A category listing: its keys sorted, without repeats, exactly the keys of its dictionary. */
  predicate ListsExactly<V>(listing: seq<string>, m: map<string, V>) {
    StrictlySorted(listing) && Elems(listing) == m.Keys
  }

  /** The listing of a Set of keys, as the script writes it: sorted, or `[]` when the Set is empty. */
  lemma CategoryListing<V>(keys: seq<string>, m: map<string, V>)
    requires NoDup(keys) && Elems(keys) == m.Keys
    ensures ListsExactly(if |keys| > 0 then SortStrings(keys) else [], m)
  {
    if |keys| > 0 {
      SortedKeyListing(keys);
    } else {
      ElemsEmpty(keys);
    }
  }

  lemma ParshiotNamesOfState(keys: seq<string>, sedarim: map<string, Seder>)
    requires Elems(keys) == sedarim.Keys
    ensures ParshiotFileNames(keys, sedarim) == set s | s in sedarim :: ParshiotFile(s)
  {
  }

  /** The key listings present after the divisions are written: the two category files and one per division. */
  lemma SedarimListingNames(listing: seq<string>, keys: seq<string>, sedarim: map<string, Seder>)
    requires Elems(keys) == sedarim.Keys
    ensures var t := WriteSedarim(Store(map[TypesFile := CategoryNames, SedarimFile := listing], map[]), keys, sedarim);
      && t.lists.Keys == {TypesFile, SedarimFile} + (set s | s in sedarim :: ParshiotFile(s))
      && t.lists[TypesFile] == CategoryNames
      && t.lists[SedarimFile] == listing
  {
    var b := Store(map[TypesFile := CategoryNames, SedarimFile := listing], map[]);
    ParshiotNamesOfState(keys, sedarim);
    WriteSedarimListingNames(b, keys, sedarim);
    forall s | s in sedarim {
      ListingNamesDistinct(s);
    }
  }

  /** Each division's section listing is sorted, without repeats, and lists exactly its sections. */
  lemma SedarimSectionListings(store: Store, keys: seq<string>, sedarim: map<string, Seder>)
    requires Elems(keys) == sedarim.Keys && SedarimValid(sedarim)
    ensures var t := WriteSedarim(store, keys, sedarim);
      forall s :: s in sedarim ==>
        ParshiotFile(s) in t.lists && ListsExactly(t.lists[ParshiotFile(s)], sedarim[s].contentByParsha)
  {
    WriteSedarimListings(store, keys, sedarim);
    forall s | s in sedarim
      ensures SederValid(sedarim[s])
      ensures ListsExactly(SortStrings(sedarim[s].parshiot), sedarim[s].contentByParsha)
    {
      SortedKeyListing(sedarim[s].parshiot);
    }
  }

  /** The listings the Torah part writes on top of `types.json`. */
  lemma TorahListings(keys: seq<string>, sedarim: map<string, Seder>)
    requires NoDup(keys) && Elems(keys) == sedarim.Keys && SedarimValid(sedarim)
    ensures var t := EmitTorah(InitialStore, keys, sedarim);
      && t.lists.Keys == {TypesFile, SedarimFile} + (set s | s in sedarim :: ParshiotFile(s))
      && t.lists[TypesFile] == CategoryNames
      && ListsExactly(t.lists[SedarimFile], sedarim)
      && (forall s :: s in sedarim ==>
            ParshiotFile(s) in t.lists && ListsExactly(t.lists[ParshiotFile(s)], sedarim[s].contentByParsha))
  {
    CategoryListing(keys, sedarim);
    if |keys| > 0 {
      var listing := SortStrings(keys);
      assert InitialStore.(lists := InitialStore.lists[SedarimFile := listing]) ==
             Store(map[TypesFile := CategoryNames, SedarimFile := listing], map[]);
      SedarimListingNames(listing, keys, sedarim);
      SedarimSectionListings(InitialStore.(lists := InitialStore.lists[SedarimFile := listing]), keys, sedarim);
    } else {
      ElemsEmpty(keys);
      assert sedarim.Keys == {};
    }
  }

  /** The festival part adds `moadim.json` to the key listings and changes no other listing. */
  lemma MoadimListing(store: Store, keys: seq<string>, moadim: map<string, seq<Item>>)
    requires NoDup(keys) && Elems(keys) == moadim.Keys
    ensures var r := EmitMoadim(store, keys, moadim);
      && r.lists.Keys == store.lists.Keys + {MoadimFile}
      && ListsExactly(r.lists[MoadimFile], moadim)
      && (forall n :: n in store.lists && n != MoadimFile ==> r.lists[n] == store.lists[n])
  {
    CategoryListing(keys, moadim);
    if |keys| > 0 {
      WriteMoadimNames(store.(lists := store.lists[MoadimFile := SortStrings(keys)]), keys, moadim);
    }
  }

  /**
   * The key listings written for a valid state: `types.json`, the sorted
   * division and festival listings and one sorted section listing per
   * division, and no other.
   */
  lemma EmittedListings(st: BuildState)
    requires Inv(st)
    ensures var out := Emit(st);
      && out.lists.Keys == {TypesFile, SedarimFile, MoadimFile} + (set s | s in st.sedarimContent :: ParshiotFile(s))
      && out.lists[TypesFile] == CategoryNames
      && ListsExactly(out.lists[SedarimFile], st.sedarimContent)
      && ListsExactly(out.lists[MoadimFile], st.moadimContent)
      && (forall s :: s in st.sedarimContent ==>
            ListsExactly(out.lists[ParshiotFile(s)], st.sedarimContent[s].contentByParsha))
  {
    var torah := EmitTorah(InitialStore, st.sedarimKeys, st.sedarimContent);
    TorahListings(st.sedarimKeys, st.sedarimContent);
    ListingsAfterMoadim(torah, st.sedarimContent, st.moadimKeys, st.moadimContent);
  }

  lemma ListingsAfterMoadim(torah: Store, sedarim: map<string, Seder>, keys: seq<string>, moadim: map<string, seq<Item>>)
    requires NoDup(keys) && Elems(keys) == moadim.Keys
    requires torah.lists.Keys == {TypesFile, SedarimFile} + (set s | s in sedarim :: ParshiotFile(s))
    ensures var out := EmitMoadim(torah, keys, moadim);
      && out.lists.Keys == {TypesFile, SedarimFile, MoadimFile} + (set s | s in sedarim :: ParshiotFile(s))
      && out.lists[TypesFile] == torah.lists[TypesFile]
      && out.lists[SedarimFile] == torah.lists[SedarimFile]
      && ListsExactly(out.lists[MoadimFile], moadim)
      && (forall s :: s in sedarim ==> out.lists[ParshiotFile(s)] == torah.lists[ParshiotFile(s)])
  {
    MoadimListing(torah, keys, moadim);
    forall s | s in sedarim {
      ListingNamesDistinct(s);
    }
  }

  /** Every Torah item file written holds one section's items in `Object.values` order. */
  lemma EmittedTorahFiles(st: BuildState)
    requires Inv(st)
    requires DistinctItemFiles(st.sedarimContent)
    ensures var out := Emit(st);
      forall s, p :: s in st.sedarimContent && p in st.sedarimContent[s].contentByParsha ==>
        TorahContentFile(s, p) in out.items &&
        out.items[TorahContentFile(s, p)] == ObjectValues(st.sedarimContent[s].contentByParsha[p])
  {
    var keys := st.sedarimKeys;
    var sedarim := st.sedarimContent;
    var torah := EmitTorah(InitialStore, keys, sedarim);
    var out := Emit(st);
    if |keys| > 0 {
      var b := InitialStore.(lists := InitialStore.lists[SedarimFile := SortStrings(keys)]);
      WriteSedarimContent(b, keys, sedarim);
      forall s, p | s in sedarim && p in sedarim[s].contentByParsha
        ensures TorahContentFile(s, p) in torah.items
        ensures torah.items[TorahContentFile(s, p)] == ObjectValues(sedarim[s].contentByParsha[p])
      {
        assert SederValid(sedarim[s]);
        assert p in sedarim[s].parshiot;
      }
    } else {
      ElemsEmpty(keys);
    }
    var mk := st.moadimKeys;
    if |mk| > 0 {
      var b := torah.(lists := torah.lists[MoadimFile := SortStrings(mk)]);
      WriteMoadimNames(b, mk, st.moadimContent);
      forall s, p | s in sedarim && p in sedarim[s].contentByParsha
        ensures TorahContentFile(s, p) !in MoadimFileNames(mk, st.moadimContent)
      {
        forall m | m in mk && m in st.moadimContent ensures TorahContentFile(s, p) != MoadimContentFile(m) {
          ContentNamesDistinct(s, p, m);
        }
      }
    }
  }

  /** Every festival item file written holds that festival's items in `Object.values` order. */
  lemma EmittedMoadimFiles(st: BuildState)
    requires Inv(st)
    ensures var out := Emit(st);
      forall m :: m in st.moadimContent ==>
        MoadimContentFile(m) in out.items && out.items[MoadimContentFile(m)] == ObjectValues(st.moadimContent[m])
  {
    var mk := st.moadimKeys;
    var torah := EmitTorah(InitialStore, st.sedarimKeys, st.sedarimContent);
    if |mk| > 0 {
      WriteMoadimContent(torah.(lists := torah.lists[MoadimFile := SortStrings(mk)]), mk, st.moadimContent);
    } else {
      ElemsEmpty(mk);
    }
  }

  /** The Torah part writes item files for the sections of its divisions and no other. */
  lemma TorahItemFileNames(keys: seq<string>, sedarim: map<string, Seder>)
    requires Elems(keys) == sedarim.Keys && SedarimValid(sedarim)
    ensures var t := EmitTorah(InitialStore, keys, sedarim);
      forall n :: n in t.items <==>
        exists s, p :: s in sedarim && p in sedarim[s].contentByParsha && n == TorahContentFile(s, p)
  {
    var t := EmitTorah(InitialStore, keys, sedarim);
    if |keys| > 0 {
      var b := InitialStore.(lists := InitialStore.lists[SedarimFile := SortStrings(keys)]);
      WriteSedarimFileNames(b, keys, sedarim);
      forall s | s in sedarim ensures Elems(sedarim[s].parshiot) == sedarim[s].contentByParsha.Keys {
        assert SederValid(sedarim[s]);
      }
    } else {
      ElemsEmpty(keys);
    }
  }

  /**
   * The item files written for a valid state are exactly one per section of
   * a division and one per festival.
   */
  lemma EmittedItemFileNames(st: BuildState)
    requires Inv(st)
    ensures var out := Emit(st);
      forall n :: n in out.items <==>
        || (exists s, p :: s in st.sedarimContent && p in st.sedarimContent[s].contentByParsha &&
                           n == TorahContentFile(s, p))
        || (exists m :: m in st.moadimContent && n == MoadimContentFile(m))
  {
    var torah := EmitTorah(InitialStore, st.sedarimKeys, st.sedarimContent);
    TorahItemFileNames(st.sedarimKeys, st.sedarimContent);
    ItemFilesAfterMoadim(torah, st.moadimKeys, st.moadimContent);
  }

  /** The festival part adds one item file per festival and keeps every other item file. */
  lemma ItemFilesAfterMoadim(torah: Store, keys: seq<string>, moadim: map<string, seq<Item>>)
    requires Elems(keys) == moadim.Keys
    ensures forall n :: n in EmitMoadim(torah, keys, moadim).items <==>
      n in torah.items || exists m :: m in moadim && n == MoadimContentFile(m)
  {
    if |keys| > 0 {
      WriteMoadimNames(torah.(lists := torah.lists[MoadimFile := SortStrings(keys)]), keys, moadim);
    } else {
      ElemsEmpty(keys);
    }
  }
}
