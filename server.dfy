/**
 * The pure string logic of the memory server's tools: the floor tables, the
 * floor checks and path normalisation of `write_document` and `list_floor`,
 * the line count of `read_document`, and the choice of floors and the
 * per-file match and snippet of `search_files`. What the file system says (whether a file exists, its
 * content, the listing of a directory, whether a write failed) is given as
 * parameters.
 */
module Server {
  import opened Wrappers
  import opened Text

  const FLOOR_NAMES: map<int, string> := map[
    1 := "Foundation",
    2 := "Systems",
    3 := "Networks",
    4 := "Action",
    5 := "Vision"
  ]

  const FLOOR_DIRS: map<int, string> := map[
    1 := "Floor_01_Foundation",
    2 := "Floor_02_Systems",
    3 := "Floor_03_Networks",
    4 := "Floor_04_Action",
    5 := "Floor_05_Vision"
  ]

  /** Both tables cover floors 1 to 5, and every directory name is non-empty (so never falsy). */
  lemma FloorTablesAgree()
    ensures FLOOR_NAMES.Keys == FLOOR_DIRS.Keys == {1, 2, 3, 4, 5}
    ensures forall f :: f in FLOOR_DIRS ==> FLOOR_DIRS[f] != ""
  {
  }

  // ----- write_document -------------------------------------------------------

  /**
   * The path a document is written to: unchanged when it already starts with
   * the floor's directory name, otherwise the directory name, one `/`, and
   * the path without its leading `/` characters.
   */
  function NormalizeDocPath(dirName: string, docPath: string): (p: string)
    ensures StartsWith(p, dirName)
    ensures StartsWith(docPath, dirName) ==> p == docPath
  {
    if StartsWith(docPath, dirName) then docPath else dirName + "/" + LStrip(docPath, '/')
  }

  /** Normalising twice is normalising once. */
  lemma NormalizeIdempotent(dirName: string, docPath: string)
    ensures NormalizeDocPath(dirName, NormalizeDocPath(dirName, docPath)) == NormalizeDocPath(dirName, docPath)
  {
  }

  /**
   * When the directory is prepended, exactly one `/` separates it from the
   * rest, and the rest is the original path with only its leading `/`
   * characters removed.
   */
  lemma NormalizeJoinsWithOneSlash(dirName: string, docPath: string)
    requires !StartsWith(docPath, dirName)
    ensures var p := NormalizeDocPath(dirName, docPath);
      && |p| > |dirName| && p[..|dirName|] == dirName && p[|dirName|] == '/'
      && (|p| == |dirName| + 1 || p[|dirName| + 1] != '/')
      && exists k :: (0 <= k <= |docPath| && docPath[k..] == p[|dirName| + 1..]
                      && forall i :: 0 <= i < k ==> docPath[i] == '/')
  {
    var p := NormalizeDocPath(dirName, docPath);
    var rest := LStrip(docPath, '/');
    assert p == dirName + "/" + rest;
    assert p[|dirName| + 1..] == rest;
    var k := |docPath| - |rest|;
    assert docPath[k..] == rest;
  }

  /**
   * The prefix test is on text, not on path components: a name that merely
   * begins with the directory name is kept as it is.
   */
  lemma PrefixTestIsTextual()
    ensures NormalizeDocPath("Floor_01_Foundation", "Floor_01_FoundationNotes.md") == "Floor_01_FoundationNotes.md"
  {
    assert StartsWith("Floor_01_FoundationNotes.md", "Floor_01_Foundation");
  }

  /** All the leading `/` characters go, however many there are, and one `/` takes their place. */
  lemma LeadingSlashesCollapse(dirName: string)
    requires !StartsWith("//notes.md", dirName)
    ensures NormalizeDocPath(dirName, "//notes.md") == dirName + "/notes.md"
  {
    TwoSlashesStripped();
    assert "/" + "notes.md" == "/notes.md";
    assert dirName + "/" + "notes.md" == dirName + ("/" + "notes.md");
  }

  /** `"//notes.md".lstrip("/")`, one character at a time. */
  lemma TwoSlashesStripped()
    ensures LStrip("//notes.md", '/') == "notes.md"
  {
    assert LStrip("notes.md", '/') == "notes.md";
    assert "/notes.md"[1..] == "notes.md";
    assert LStrip("/notes.md", '/') == "notes.md";
    assert "//notes.md"[1..] == "/notes.md";
  }

  /** Where `write_document` writes: nowhere for a floor outside the table. */
  function WritePath(docPath: string, floor: int): (p: Option<string>)
    ensures p.None? <==> !(1 <= floor <= 5)
    ensures p.Some? ==> StartsWith(p.value, FLOOR_DIRS[floor])
  {
    if floor in FLOOR_DIRS then Some(NormalizeDocPath(FLOOR_DIRS[floor], docPath)) else None
  }

  /** The write tool's answer: `{written, floor, floor_name, size_chars}` or `{error}` */
  datatype WriteResult =
    | Written(written: string, floor: int, floorName: string, sizeChars: nat)
    | WriteError(error: string)

  function InvalidFloorNumber(floor: int): string {
    "Invalid floor number: " + IntToString(floor) + ". Use 1\U{2013}5."
  }

  /**
   * `write_document`. `writeFailure` is the message of the exception the
   * write raised, if it raised one.
   */
  function WriteDocument(docPath: string, content: string, floor: int, writeFailure: Option<string>): (r: WriteResult)
    ensures !(1 <= floor <= 5) ==> r == WriteError(InvalidFloorNumber(floor))
    ensures 1 <= floor <= 5 && writeFailure.Some? ==> r == WriteError(writeFailure.value)
    ensures 1 <= floor <= 5 && writeFailure.None? ==>
      && r.Written? && r.written == WritePath(docPath, floor).value
      && StartsWith(r.written, FLOOR_DIRS[floor])
      && r.floor == floor && r.floorName == FLOOR_NAMES[floor] && r.sizeChars == |content|
  {
    match WritePath(docPath, floor)
    case None => WriteError(InvalidFloorNumber(floor))
    case Some(path) =>
      match writeFailure
      case Some(e) => WriteError(e)
      case None => Written(path, floor, FLOOR_NAMES[floor], |content|)
  }

  /** An invalid floor is reported the same way whatever the file system would have done: no write is attempted. */
  lemma InvalidFloorNeverWrites(docPath: string, content: string, floor: int, a: Option<string>, b: Option<string>)
    requires !(1 <= floor <= 5)
    ensures WritePath(docPath, floor) == None
    ensures WriteDocument(docPath, content, floor, a) == WriteDocument(docPath, content, floor, b)
    ensures WriteDocument(docPath, content, floor, a).WriteError?
  {
  }

  // ----- read_document --------------------------------------------------------

  /** The read tool's answer: `{path, content, size_chars, lines}` or `{error}`. */
  datatype ReadResult =
    | DocumentRead(path: string, content: string, sizeChars: nat, lines: nat)
    | ReadError(error: string)

  /** `read_document`; `stored` is the file's content, `None` when the file does not exist. */
  function ReadDocument(docPath: string, stored: Option<string>): (r: ReadResult)
    ensures stored.None? ==> r == ReadError("Document not found: " + docPath)
    ensures stored.Some? ==>
      && r.DocumentRead? && r.path == docPath && r.content == stored.value
      && r.sizeChars == |stored.value| && r.lines == |SplitOn(stored.value, '\n')|
  {
    match stored
    case None => ReadError("Document not found: " + docPath)
    case Some(content) =>
      SplitOnCount(content, '\n');
      DocumentRead(docPath, content, |content|, CountChar(content, '\n') + 1)
  }

  // ----- list_floor -----------------------------------------------------------

  /** The floor tool's answer: an error, a note that the directory is missing, or the documents. */
  datatype FloorListing =
    | FloorError(error: string)
    | FloorMissing(floor: int, floorName: string, documents: seq<string>, note: string)
    | FloorDocuments(floor: int, floorName: string, documentCount: nat, documents: seq<string>)

  /** `list_floor`; `scan` is the directory's document list, `None` when the directory does not exist. */
  function ListFloor(floor: int, scan: Option<seq<string>>): (r: FloorListing)
    ensures r.FloorError? <==> !(1 <= floor <= 5)
    ensures r.FloorError? ==> r.error == "Invalid floor: " + IntToString(floor)
    ensures !r.FloorError? ==> r.floor == floor && r.floorName == FLOOR_NAMES[floor]
    ensures r.FloorMissing? <==> 1 <= floor <= 5 && scan.None?
    ensures r.FloorMissing? ==> r.documents == []
    ensures r.FloorDocuments? ==> r.documents == scan.value && r.documentCount == |scan.value|
  {
    if floor !in FLOOR_DIRS then FloorError("Invalid floor: " + IntToString(floor))
    else match scan
      case None => FloorMissing(floor, FLOOR_NAMES[floor], [], "Floor directory does not exist yet")
      case Some(docs) => FloorDocuments(floor, FLOOR_NAMES[floor], |docs|, docs)
  }

  // ----- search_files ---------------------------------------------------------

  /** The floors from `f` to 5, in order, whose directory exists. */
  function ExistingFrom(f: int, existing: set<int>): (fs: seq<int>)
    requires 1 <= f
    ensures forall k :: 0 <= k < |fs| ==> f <= fs[k] <= 5 && fs[k] in existing
    ensures forall k, m :: 0 <= k < m < |fs| ==> fs[k] < fs[m]
    ensures forall g :: f <= g <= 5 && g in existing ==> g in fs
    decreases 6 - f
  {
    if f > 5 then []
    else (if f in existing then [f] else []) + ExistingFrom(f + 1, existing)
  }

  /**
   * The floors `search_files` searches, given the floors whose directory
   * exists: the requested floor alone when it is valid and present,
   * otherwise every present floor in ascending order.
   */
  function SearchFloors(floor: Option<int>, existing: set<int>): (fs: seq<int>)
    ensures forall k :: 0 <= k < |fs| ==> 1 <= fs[k] <= 5 && fs[k] in existing
    ensures forall k, m :: 0 <= k < m < |fs| ==> fs[k] < fs[m]
    ensures floor.Some? ==> (fs != [] <==> 1 <= floor.value <= 5 && floor.value in existing)
    ensures floor.Some? && fs != [] ==> fs == [floor.value]
    ensures floor.None? ==> forall g :: 1 <= g <= 5 && g in existing ==> g in fs
  {
    match floor
    case Some(f) => if f in FLOOR_DIRS && f in existing then [f] else []
    case None => ExistingFrom(1, existing)
  }

  /** One search hit: `{path, floor, floor_name, snippet}`. */
  datatype SearchHit = SearchHit(path: string, floor: int, floorName: string, snippet: string)

  /** A line matches when the lower-cased query occurs in the lower-cased line. */
  predicate LineMatches(line: string, queryLower: string) {
    Contains(Lower(line), queryLower)
  }

  /** Index of the first line at or after `from` that matches, `|lines|` when there is none. */
  function FirstMatch(lines: seq<string>, queryLower: string, from: nat): (k: nat)
    requires from <= |lines|
    ensures from <= k <= |lines|
    ensures k < |lines| ==> LineMatches(lines[k], queryLower)
    ensures forall m :: from <= m < k ==> !LineMatches(lines[m], queryLower)
    decreases |lines| - from
  {
    if from == |lines| || LineMatches(lines[from], queryLower) then from
    else FirstMatch(lines, queryLower, from + 1)
  }

  /** The snippet of a file: its first matching line, stripped and cut to 200 characters, or `""`. */
  function Snippet(lines: seq<string>, queryLower: string): string {
    var k := FirstMatch(lines, queryLower, 0);
    if k < |lines| then Take(Strip(lines[k]), 200) else ""
  }

  /**
   * The search of one file of floor `floor`: a hit exactly when the
   * lower-cased query occurs in the lower-cased content; its snippet is the
   * first matching line, stripped and cut to 200 characters, or `""` when no
   * single line matches.
   */
  method SearchFile(path: string, floor: int, query: string, content: string) returns (hit: Option<SearchHit>)
    requires floor in FLOOR_DIRS
    ensures hit.Some? <==> Contains(Lower(content), Lower(query))
    ensures hit.Some? ==>
      && hit.value.path == path && hit.value.floor == floor
      && hit.value.floorName == FLOOR_NAMES[floor] && |hit.value.snippet| <= 200
    ensures hit.Some? ==> hit.value.snippet == Snippet(SplitLines(content), Lower(query))
  {
    var queryLower := Lower(query);
    if !Contains(Lower(content), queryLower) {
      return None;
    }
    var snippet := "";
    var lines := SplitLines(content);
    var i := 0;
    while i < |lines|
      invariant 0 <= i <= |lines|
      invariant forall m :: 0 <= m < i ==> !LineMatches(lines[m], queryLower)
      invariant FirstMatch(lines, queryLower, 0) >= i
      invariant snippet == ""
    {
      if Contains(Lower(lines[i]), queryLower) {
        snippet := Take(Strip(lines[i]), 200);
        assert FirstMatch(lines, queryLower, 0) == i;
        break;
      }
      i := i + 1;
    }
    hit := Some(SearchHit(path, floor, FLOOR_NAMES[floor], snippet));
  }

  lemma LowerKeepsLineBreaks(s: string, p: nat)
    requires p < |s|
    ensures IsLineBreak(Lower(s)[p]) <==> IsLineBreak(s[p])
  {
  }

  /** An occurrence inside the slice `s[a..b]` is an occurrence in the slice. */
  lemma OccurrenceInSlice(s: string, q: string, i: nat, a: nat, b: nat)
    requires a <= i && i + |q| <= b <= |s| && StartsWith(Lower(s)[i..], q)
    ensures Contains(Lower(s[a..b]), q)
  {
    var t := s[a..b];
    assert Lower(t)[i - a..][..|q|] == Lower(s)[i..][..|q|] by {
      forall p | 0 <= p < |q| ensures Lower(t)[i - a..][..|q|][p] == Lower(s)[i..][..|q|][p] {
        assert t[i - a + p] == s[i + p];
      }
    }
    assert StartsWith(Lower(t)[i - a..], q);
  }

  /** An occurrence inside a suffix of the text is an occurrence in that suffix, shifted by the suffix's start. */
  lemma OccurrenceInSuffix(s: string, q: string, i: nat, a: nat)
    requires a <= i && i + |q| <= |s| && StartsWith(Lower(s)[i..], q)
    ensures StartsWith(Lower(s[a..])[i - a..], q) && Contains(Lower(s[a..]), q)
  {
    var t := s[a..];
    assert Lower(t)[i - a..][..|q|] == Lower(s)[i..][..|q|] by {
      forall p | 0 <= p < |q| ensures Lower(t)[i - a..][..|q|][p] == Lower(s)[i..][..|q|][p] {
        assert t[i - a + p] == s[i + p];
      }
    }
    assert StartsWith(Lower(t)[i - a..], q);
  }

  /** An occurrence of a query without line breaks spans no line break of the text. */
  lemma OccurrenceAvoidsBreaks(s: string, q: string, i: nat)
    requires i + |q| <= |s| && StartsWith(Lower(s)[i..], q)
    requires forall m :: 0 <= m < |q| ==> !IsLineBreak(q[m])
    ensures forall p :: i <= p < i + |q| ==> !IsLineBreak(s[p])
  {
    forall p | i <= p < i + |q| ensures !IsLineBreak(s[p]) {
      assert Lower(s)[p] == q[p - i];
      LowerKeepsLineBreaks(s, p);
    }
  }

  /** An occurrence that ends before the first boundary lies in the first line. */
  lemma InFirstLine(s: string, q: string, i: nat)
    requires s != [] && i + |q| <= LineEnd(s, 0) && StartsWith(Lower(s)[i..], q)
    ensures LineMatches(SplitLines(s)[0], q)
  {
    var j := LineEnd(s, 0);
    OccurrenceInSlice(s, q, i, 0, j);
    assert s[0..j] == s[..j];
    if j < |s| {
      assert SplitLines(s)[0] == s[..j];
    } else {
      assert s[..j] == s;
    }
  }

  /** Past the first boundary, the lines of a text are the lines of the rest. */
  lemma SplitLinesTail(s: string)
    requires s != [] && LineEnd(s, 0) < |s|
    ensures |SplitLines(s)| >= 1
    ensures SplitLines(s)[1..] == SplitLines(s[BreakEnd(s, LineEnd(s, 0))..])
  {
    var j := LineEnd(s, 0);
    var tail := SplitLines(s[BreakEnd(s, j)..]);
    assert SplitLines(s) == [s[..j]] + tail;
  }

  /** The first boundary in full comes before an occurrence that does not end before it. */
  lemma BoundaryBeforeOccurrence(s: string, q: string, i: nat)
    requires q != [] && i + |q| <= |s|
    requires forall p :: i <= p < i + |q| ==> !IsLineBreak(s[p])
    requires LineEnd(s, 0) < |s| && LineEnd(s, 0) < i + |q|
    ensures BreakEnd(s, LineEnd(s, 0)) <= i
  {
    var j := LineEnd(s, 0);
    assert IsLineBreak(s[j]);
    assert j < i;
    if BreakEnd(s, j) == j + 2 {
      assert IsLineBreak(s[j + 1]);
    }
  }

  /**
   * An occurrence of a query without line breaks that does not end before the
   * first boundary lies wholly after it, in the text the remaining lines split.
   */
  lemma InLaterLines(s: string, q: string, i: nat) returns (next: nat)
    requires q != [] && i + |q| <= |s| && StartsWith(Lower(s)[i..], q)
    requires forall m :: 0 <= m < |q| ==> !IsLineBreak(q[m])
    requires LineEnd(s, 0) < |s| && LineEnd(s, 0) < i + |q|
    ensures next == BreakEnd(s, LineEnd(s, 0)) && next <= i
    ensures StartsWith(Lower(s[next..])[i - next..], q)
    ensures |SplitLines(s)| >= 1 && SplitLines(s)[1..] == SplitLines(s[next..])
  {
    next := BreakEnd(s, LineEnd(s, 0));
    OccurrenceAvoidsBreaks(s, q, i);
    BoundaryBeforeOccurrence(s, q, i);
    OccurrenceInSuffix(s, q, i, next);
    SplitLinesTail(s);
  }

  /** Dropping the first element shifts every index by one. */
  lemma IndexPastFirst(a: seq<string>, b: seq<string>, k: nat)
    requires |a| >= 1 && a[1..] == b && k < |b|
    ensures k + 1 < |a| && a[k + 1] == b[k]
  {
  }

  /**
   * An occurrence at `i` of a query without line breaks lies within one of
   * the text's lines: `k` is that line.
   */
  lemma {:induction false} MatchingLine(s: string, q: string, i: nat) returns (k: nat)
    requires q != [] && i + |q| <= |s| && StartsWith(Lower(s)[i..], q)
    requires forall m :: 0 <= m < |q| ==> !IsLineBreak(q[m])
    ensures k < |SplitLines(s)| && LineMatches(SplitLines(s)[k], q)
    decreases |s|
  {
    if i + |q| <= LineEnd(s, 0) {
      InFirstLine(s, q, i);
      k := 0;
    } else {
      var next := InLaterLines(s, q, i);
      var k' := MatchingLine(s[next..], q, i - next);
      IndexPastFirst(SplitLines(s), SplitLines(s[next..]), k');
      k := k' + 1;
    }
  }

  /**
   * A query without line breaks that occurs in a non-empty file occurs within
   * one of its lines, so such a hit always takes its snippet from a line.
   */
  lemma MatchLiesInALine(s: string, q: string)
    requires s != [] && Contains(Lower(s), q)
    requires forall m :: 0 <= m < |q| ==> !IsLineBreak(q[m])
    ensures exists k :: 0 <= k < |SplitLines(s)| && LineMatches(SplitLines(s)[k], q)
  {
    if q == [] {
      EmptyInAll(Lower(SplitLines(s)[0]));
      assert LineMatches(SplitLines(s)[0], q);
    } else {
      var i :| 0 <= i <= |s| - |q| && StartsWith(Lower(s)[i..], q);
      var k := MatchingLine(s, q, i);
    }
  }
}
