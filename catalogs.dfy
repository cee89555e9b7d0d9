/**
 * The two hard-coded catalogues of the library: files by floor and files by
 * tag. Both are constant tables, independent of the knowledge graph.
 */
module Catalogs {
  import opened Text
  import opened KnowledgeGraph

  /** The floor table `search_by_floor` checks its argument against. */
  const LIBRARY_FLOORS: map<int, string> := map[
    1 := "Foundation & Navigation",
    2 := "Frameworks & Understanding",
    3 := "Networks & Relationships",
    4 := "Action & Implementation",
    5 := "Vision & Meaning"
  ]

  /** The files assigned to each floor. */
  const FLOOR_FILES: map<int, seq<string>> := map[
    1 := ["00_Hub_Index.md", "01_Career_Master.md", "02_Skills_Inventory.md", "03_Daily_Operations.md"],
    2 := ["10_Glossary.md", "11_Transmittal_Standards.md"],
    3 := ["18_Network_Map.md", "21_Background_Story.md"],
    4 := ["06_Project_Template.md", "26_Decision_Tree.md"],
    5 := ["32_Personality_Framework.md", "35_Strategic_Plan.md"]
  ]

  /** The tag table, in its declaration order. */
  const TAG_MAPPING: seq<(string, seq<string>)> := [
    ("career", ["01_Career_Master.md", "02_Skills_Inventory.md"]),
    ("strategy", ["35_Strategic_Plan.md"]),
    ("daily", ["03_Daily_Operations.md"]),
    ("frameworks", ["32_Personality_Framework.md"]),
    ("network", ["18_Network_Map.md"]),
    ("investigation", ["06_Project_Template.md", "26_Decision_Tree.md"])
  ]

  /** The `name` fields of a list of records. */
  function Names(refs: seq<FileRef>): (names: seq<string>)
    ensures |names| == |refs|
    ensures forall i :: 0 <= i < |refs| ==> names[i] == refs[i].name
  {
    seq(|refs|, i requires 0 <= i < |refs| => refs[i].name)
  }

  // ----- floors ---------------------------------------------------------------

  /** `floor_files.get(floor, [])`. */
  function FloorFileNames(floor: int): seq<string> {
    if floor in FLOOR_FILES then FLOOR_FILES[floor] else []
  }

  /** `_get_files_by_floor`: one `{name, floor}` record per catalogued file. */
  function FilesByFloor(floor: int): seq<FileRef> {
    seq(|FloorFileNames(floor)|, i requires 0 <= i < |FloorFileNames(floor)| =>
      FloorFile(FloorFileNames(floor)[i], floor))
  }

  /**
   * The floor records are the catalogue list of that floor, in order, each
   * carrying the floor number; a floor with no catalogue entry has none.
   */
  lemma FilesByFloorSpec(floor: int)
    ensures Names(FilesByFloor(floor)) == FloorFileNames(floor)
    ensures forall i :: 0 <= i < |FilesByFloor(floor)| ==>
      FilesByFloor(floor)[i].FloorFile? && FilesByFloor(floor)[i].floor == floor
    ensures !(1 <= floor <= 5) ==> FilesByFloor(floor) == []
    ensures 1 <= floor <= 5 ==> FilesByFloor(floor) != []
  {
  }

  /** The floor check and the file table cover the same floors, 1 to 5. */
  lemma FloorTablesAgree()
    ensures LIBRARY_FLOORS.Keys == FLOOR_FILES.Keys == {1, 2, 3, 4, 5}
  {
  }

  // ----- tags -----------------------------------------------------------------

  /** The records of one tag key: one `{name, tag}` per file, in list order. */
  function KeyFiles(key: string, files: seq<string>): seq<FileRef> {
    seq(|files|, i requires 0 <= i < |files| => TagFile(files[i], key))
  }

  /** The records of every key that contains the (lower-cased) term, key after key. */
  function TagFiles(mapping: seq<(string, seq<string>)>, term: string): seq<FileRef>
    decreases |mapping|
  {
    if mapping == [] then []
    else
      var (key, files) := mapping[|mapping| - 1];
      TagFiles(mapping[..|mapping| - 1], term) + (if Contains(key, term) then KeyFiles(key, files) else [])
  }

  /** `search_by_tag`, result only. */
  function SearchTag(tag: string): seq<FileRef> {
    TagFiles(TAG_MAPPING, Lower(tag))
  }

  /**
   * Every tag record names a key containing the term and one of that key's
   * files.
   */
  lemma {:induction false} TagFilesSound(mapping: seq<(string, seq<string>)>, term: string, k: nat)
    requires k < |TagFiles(mapping, term)|
    ensures var r := TagFiles(mapping, term)[k];
      r.TagFile? && Contains(r.tag, term)
      && exists e :: 0 <= e < |mapping| && mapping[e].0 == r.tag && r.name in mapping[e].1
    decreases |mapping|
  {
    var init := mapping[..|mapping| - 1];
    var (key, files) := mapping[|mapping| - 1];
    var pre := TagFiles(init, term);
    if k < |pre| {
      TagFilesSound(init, term, k);
      var e :| 0 <= e < |init| && init[e].0 == pre[k].tag && pre[k].name in init[e].1;
      assert mapping[e] == init[e];
    } else {
      var r := TagFiles(mapping, term)[k];
      assert r == KeyFiles(key, files)[k - |pre|];
      assert mapping[|mapping| - 1].0 == r.tag;
    }
  }

  /** Every file of every key containing the term is reported. */
  lemma {:induction false} TagFilesComplete(mapping: seq<(string, seq<string>)>, term: string, e: nat, j: nat)
    requires e < |mapping| && j < |mapping[e].1| && Contains(mapping[e].0, term)
    ensures TagFile(mapping[e].1[j], mapping[e].0) in TagFiles(mapping, term)
    decreases |mapping|
  {
    var init := mapping[..|mapping| - 1];
    var (key, files) := mapping[|mapping| - 1];
    if e < |init| {
      TagFilesComplete(init, term, e, j);
      assert init[e] == mapping[e];
    } else {
      assert KeyFiles(key, files)[j] == TagFile(mapping[e].1[j], mapping[e].0);
    }
  }

  /** No key containing the term means no records. */
  lemma {:induction false} TagFilesNone(mapping: seq<(string, seq<string>)>, term: string)
    requires forall e :: 0 <= e < |mapping| ==> !Contains(mapping[e].0, term)
    ensures TagFiles(mapping, term) == []
    decreases |mapping|
  {
    if mapping != [] {
      var init := mapping[..|mapping| - 1];
      assert forall e :: 0 <= e < |init| ==> init[e] == mapping[e];
      TagFilesNone(init, term);
    }
  }

  /** The tag keys are distinct, as dictionary keys are. */
  lemma TagKeysDistinct()
    ensures forall e, f :: 0 <= e < f < |TAG_MAPPING| ==> TAG_MAPPING[e].0 != TAG_MAPPING[f].0
  {
  }
}
