/**
 * The processed corpus as the ingestion script writes it and the search route
 * reads it back: JSON files of key lists and of item lists, addressed by name.
 */
module Snapshot {
  import opened Strings

  /** One passage of an item: `{passage_id, passage_content}`. */
  datatype Passage = Passage(id: string, content: string)

  /** One commentary: `{dvar_torah_id, title, summary, contents}`. */
  datatype Item = Item(id: string, title: string, summary: string, contents: seq<Passage>)

  /** The two categories of the corpus, as they are spelt in `types.json`. */
  datatype Category = Torah | Moadim

  function CategoryName(c: Category): string {
    match c
    case Torah => "Torah"
    case Moadim => "Moadim"
  }

  /**
   * The processed-data directory: files holding a list of keys and files
   * holding a list of items. A name that is not in a map is a file that does
   * not exist.
   */
  datatype Store = Store(lists: map<string, seq<string>>, items: map<string, seq<Item>>)

  const TypesFile: string := "types.json"
  const SedarimFile: string := "sedarim.json"
  const MoadimFile: string := "moadim.json"

  /** Contents of `types.json`. */
  const CategoryNames: seq<string> := ["Torah", "Moadim"]

  function ParshiotFile(seder: string): string {
    "parshiot-Torah-" + seder + ".json"
  }

  function TorahContentFile(seder: string, parsha: string): string {
    "content-Torah-" + seder + "-" + parsha + ".json"
  }

  function MoadimContentFile(moed: string): string {
    "content-Moadim-" + moed + ".json"
  }

  /** Each division has its own section listing. */
  lemma ParshiotFileInjective(a: string, b: string)
    ensures ParshiotFile(a) == ParshiotFile(b) ==> a == b
  {
    var n := ParshiotFile(a);
    if n == ParshiotFile(b) {
      assert n[15..|n| - 5] == a;
      assert n[15..|n| - 5] == b;
    }
  }

  /** Each festival has its own item file. */
  lemma MoadimContentFileInjective(a: string, b: string)
    ensures MoadimContentFile(a) == MoadimContentFile(b) ==> a == b
  {
    var n := MoadimContentFile(a);
    if n == MoadimContentFile(b) {
      assert n[15..|n| - 5] == a;
      assert n[15..|n| - 5] == b;
    }
  }

  /** Position of the first c in s, or |s| when there is none. */
  function FirstIndexOf(s: string, c: char): (i: nat)
    ensures i <= |s|
  {
    if s == [] || s[0] == c then 0 else 1 + FirstIndexOf(s[1..], c)
  }

  lemma {:induction false} FirstIndexOfJoin(a: string, c: char, b: string)
    requires c !in a
    ensures FirstIndexOf(a + [c] + b, c) == |a|
  {
    if a != [] {
      assert (a + [c] + b)[1..] == a[1..] + [c] + b;
      FirstIndexOfJoin(a[1..], c, b);
    }
  }

  /**
   * The item files of two Torah sections have different names as long as no
   * division key contains a hyphen.
   */
  lemma TorahContentFileInjective(s1: string, p1: string, s2: string, p2: string)
    requires '-' !in s1 && '-' !in s2
    ensures TorahContentFile(s1, p1) == TorahContentFile(s2, p2) ==> s1 == s2 && p1 == p2
  {
    var n := TorahContentFile(s1, p1);
    if n == TorahContentFile(s2, p2) {
      var u := n[14..|n| - 5];
      assert u == s1 + ['-'] + p1;
      assert u == s2 + ['-'] + p2;
      FirstIndexOfJoin(s1, '-', p1);
      FirstIndexOfJoin(s2, '-', p2);
      assert s1 == u[..|s1|] && s2 == u[..|s2|];
      assert p1 == u[|s1| + 1..] && p2 == u[|s2| + 1..];
    }
  }

  /** Within one division, different sections always have different item files. */
  lemma TorahContentFileSameDivision(s: string, p1: string, p2: string)
    ensures TorahContentFile(s, p1) == TorahContentFile(s, p2) ==> p1 == p2
  {
    var n := TorahContentFile(s, p1);
    if n == TorahContentFile(s, p2) {
      assert n[15 + |s|..|n| - 5] == p1;
      assert n[15 + |s|..|n| - 5] == p2;
    }
  }

  /** Without that restriction two different sections can share one item file. */
  lemma TorahContentFileCollision()
    ensures TorahContentFile("a-b", "c") == TorahContentFile("a", "b-c")
  {
  }

  /** A section listing never overwrites a category listing. */
  lemma ListingNamesDistinct(seder: string)
    ensures ParshiotFile(seder) != TypesFile
    ensures ParshiotFile(seder) != SedarimFile
    ensures ParshiotFile(seder) != MoadimFile
  {
    assert ParshiotFile(seder)[0] == 'p';
  }

  /** Torah and Moadim item files never share a name. */
  lemma ContentNamesDistinct(seder: string, parsha: string, moed: string)
    ensures TorahContentFile(seder, parsha) != MoadimContentFile(moed)
  {
    assert TorahContentFile(seder, parsha)[8] == 'T';
    assert MoadimContentFile(moed)[8] == 'M';
  }
}
