/**
 * Concept search over the knowledge graph: which nodes match a term, and the
 * file records flattened out of the matching nodes.
 */
module ConceptSearch {
  import opened Wrappers
  import opened Text
  import opened KnowledgeGraph

  /**
   * A node matches an already lower-cased term when the term occurs in its
   * lower-cased label (an absent label reads as `""`) or in its lower-cased id.
   */
  predicate NodeMatches(term: string, id: string, n: Node) {
    Contains(Lower(LabelOr(n, "")), term) || Contains(Lower(id), term)
  }

  /** The nodes, in key order, whose key and record match `term`. */
  function MatchIds(ids: seq<string>, nodes: map<string, Node>, term: string): (r: seq<Node>)
    requires forall i :: 0 <= i < |ids| ==> ids[i] in nodes
    decreases |ids|
  {
    if ids == [] then []
    else
      var last := ids[|ids| - 1];
      MatchIds(ids[..|ids| - 1], nodes, term)
        + (if NodeMatches(term, last, nodes[last]) then [nodes[last]] else [])
  }

  /** The matching nodes of a graph, in its key order. */
  function MatchingNodes(g: Graph, term: string): seq<Node> {
    MatchIds(g.ids, g.nodes, term)
  }

  /** Every matching node is kept, every kept node matches, and nothing else is there. */
  lemma {:induction false} MatchIdsMembership(ids: seq<string>, nodes: map<string, Node>, term: string, n: Node)
    requires forall i :: 0 <= i < |ids| ==> ids[i] in nodes
    ensures n in MatchIds(ids, nodes, term)
        <==> exists i :: 0 <= i < |ids| && nodes[ids[i]] == n && NodeMatches(term, ids[i], n)
    ensures |MatchIds(ids, nodes, term)| <= |ids|
    decreases |ids|
  {
    if ids != [] {
      var init := ids[..|ids| - 1];
      MatchIdsMembership(init, nodes, term, n);
      if n in MatchIds(init, nodes, term) {
        var i :| 0 <= i < |init| && nodes[init[i]] == n && NodeMatches(term, init[i], n);
        assert ids[i] == init[i];
      }
      if exists i :: 0 <= i < |ids| && nodes[ids[i]] == n && NodeMatches(term, ids[i], n) {
        var i :| 0 <= i < |ids| && nodes[ids[i]] == n && NodeMatches(term, ids[i], n);
        if i < |init| {
          assert init[i] == ids[i];
        }
      }
    }
  }

  /** No node is matched exactly when no key and no label contains the term. */
  lemma {:induction false} MatchIdsEmpty(ids: seq<string>, nodes: map<string, Node>, term: string)
    requires forall i :: 0 <= i < |ids| ==> ids[i] in nodes
    ensures MatchIds(ids, nodes, term) == []
        <==> forall i :: 0 <= i < |ids| ==> !NodeMatches(term, ids[i], nodes[ids[i]])
    decreases |ids|
  {
    if ids != [] {
      var init := ids[..|ids| - 1];
      MatchIdsEmpty(init, nodes, term);
      assert forall i :: 0 <= i < |init| ==> init[i] == ids[i];
    }
  }

  /** The records of one node: one per file location, in location order. */
  function NodeFiles(n: Node): seq<FileRef> {
    seq(|n.fileLocations|, j requires 0 <= j < |n.fileLocations| =>
      ConceptFile(n.fileLocations[j], n.labelText, n.floor))
  }

  /** `_extract_files_from_nodes`: the records of every node, node after node. */
  function ExtractFiles(nodes: seq<Node>): seq<FileRef>
    decreases |nodes|
  {
    if nodes == [] then [] else ExtractFiles(nodes[..|nodes| - 1]) + NodeFiles(nodes[|nodes| - 1])
  }

  /** Number of file locations over a list of nodes. */
  function TotalLocations(nodes: seq<Node>): nat
    decreases |nodes|
  {
    if nodes == [] then 0 else TotalLocations(nodes[..|nodes| - 1]) + |nodes[|nodes| - 1].fileLocations|
  }

  lemma {:induction false} TotalLocationsPrefix(nodes: seq<Node>, i: nat)
    requires i <= |nodes|
    ensures TotalLocations(nodes[..i]) <= TotalLocations(nodes)
    ensures i < |nodes| ==> TotalLocations(nodes[..i]) + |nodes[i].fileLocations| <= TotalLocations(nodes)
    decreases |nodes|
  {
    if i < |nodes| {
      var init := nodes[..|nodes| - 1];
      if i < |init| {
        TotalLocationsPrefix(init, i);
        assert init[..i] == nodes[..i];
      } else {
        assert init == nodes[..i];
      }
    } else {
      assert nodes[..i] == nodes;
    }
  }

  /**
   * Exactly one record per file location: the record of location `j` of node
   * `i` sits right after the records of the nodes before `i` and the
   * locations before `j`, and there are no others.
   */
  lemma {:induction false} ExtractFilesAt(nodes: seq<Node>, i: nat, j: nat)
    requires i < |nodes| && j < |nodes[i].fileLocations|
    ensures |ExtractFiles(nodes)| == TotalLocations(nodes)
    ensures TotalLocations(nodes[..i]) + j < |ExtractFiles(nodes)|
    ensures ExtractFiles(nodes)[TotalLocations(nodes[..i]) + j]
         == ConceptFile(nodes[i].fileLocations[j], nodes[i].labelText, nodes[i].floor)
    decreases |nodes|
  {
    var init := nodes[..|nodes| - 1];
    ExtractFilesLength(nodes);
    ExtractFilesLength(init);
    TotalLocationsPrefix(nodes, i);
    if i < |init| {
      ExtractFilesAt(init, i, j);
      assert init[..i] == nodes[..i];
      assert init[i] == nodes[i];
    } else {
      assert init == nodes[..i];
    }
  }

  /** The number of records is the total number of file locations. */
  lemma {:induction false} ExtractFilesLength(nodes: seq<Node>)
    ensures |ExtractFiles(nodes)| == TotalLocations(nodes)
    decreases |nodes|
  {
    if nodes != [] {
      ExtractFilesLength(nodes[..|nodes| - 1]);
    }
  }

  /** Every record comes from some location of some node and carries that node's label and floor. */
  lemma {:induction false} ExtractFilesSound(nodes: seq<Node>, k: nat)
    requires k < |ExtractFiles(nodes)|
    ensures exists i, j :: (0 <= i < |nodes| && 0 <= j < |nodes[i].fileLocations|
                            && ExtractFiles(nodes)[k]
                               == ConceptFile(nodes[i].fileLocations[j], nodes[i].labelText, nodes[i].floor))
    decreases |nodes|
  {
    var init := nodes[..|nodes| - 1];
    var last := nodes[|nodes| - 1];
    if k < |ExtractFiles(init)| {
      ExtractFilesSound(init, k);
      var i, j :| 0 <= i < |init| && 0 <= j < |init[i].fileLocations|
        && ExtractFiles(init)[k] == ConceptFile(init[i].fileLocations[j], init[i].labelText, init[i].floor);
      assert init[i] == nodes[i];
    } else {
      var j := k - |ExtractFiles(init)|;
      assert ExtractFiles(nodes)[k] == NodeFiles(last)[j];
    }
  }

  /** The concept search result: the records of the nodes matching the lower-cased term. */
  function SearchConcept(g: Graph, concept: string): seq<FileRef> {
    ExtractFiles(MatchingNodes(g, Lower(concept)))
  }

  /** A term that occurs in no label and no id, ignoring case, finds nothing. */
  lemma NoMatchNoFiles(g: Graph, concept: string)
    requires forall i :: 0 <= i < |g.ids| ==> !NodeMatches(Lower(concept), g.ids[i], g.nodes[g.ids[i]])
    ensures MatchingNodes(g, Lower(concept)) == []
    ensures SearchConcept(g, concept) == []
  {
    MatchIdsEmpty(g.ids, g.nodes, Lower(concept));
  }
}
