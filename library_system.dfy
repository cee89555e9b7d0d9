/**
 * The library's query engine: the knowledge graph, the catalogues and the
 * session log behind one object. The graph is read-only; the only state the
 * queries change is the query history, which grows by at most one entry per
 * call. Timestamps come from the caller (`now`), since the clock is outside
 * the model.
 */
module Library {
  import opened Wrappers
  import opened Text
  import opened KnowledgeGraph
  import opened ConceptSearch
  import opened RelatedWalk
  import opened Catalogs
  import opened Journal

  class LibrarySystem {
    const graph: Graph
    const floorMappingPath: string
    const sessionStart: string
    var queryHistory: seq<LogEntry>

    /** A library over a loaded graph (the empty graph when the file was missing), with an empty log. */
    constructor (graph: Graph, floorMappingPath: string, sessionStart: string)
      ensures this.graph == graph && this.floorMappingPath == floorMappingPath
      ensures this.sessionStart == sessionStart && queryHistory == []
    {
      this.graph := graph;
      this.floorMappingPath := floorMappingPath;
      this.sessionStart := sessionStart;
      queryHistory := [];
    }

    /**
     * Files of the nodes matching `concept`, ignoring case. When no node
     * matches, the result is empty and nothing is logged; otherwise one
     * `concept` entry records the original term and the number of files.
     */
    method SearchByConcept(concept: string, now: string) returns (files: seq<FileRef>)
      modifies this
      ensures files == SearchConcept(graph, concept)
      ensures MatchingNodes(graph, Lower(concept)) == [] ==>
        files == [] && queryHistory == old(queryHistory)
      ensures MatchingNodes(graph, Lower(concept)) != [] ==>
        queryHistory == old(queryHistory) + [LogEntry(now, ConceptQuery, concept, |files|)]
    {
      var matchingNodes := SearchKnowledgeGraph(Lower(concept));
      if matchingNodes == [] {
        return [];
      }
      files := ExtractFilesFromNodes(matchingNodes);
      LogQuery(ConceptQuery, concept, |files|, now);
    }

    /**
     * The catalogue files of a floor. Outside floors 1 to 5: empty, nothing
     * logged. Otherwise one `floor` entry with query `"Floor n"`.
     */
    method SearchByFloor(floorNumber: int, now: string) returns (files: seq<FileRef>)
      modifies this
      ensures !(1 <= floorNumber <= 5) ==> files == [] && queryHistory == old(queryHistory)
      ensures 1 <= floorNumber <= 5 ==>
        && files == FilesByFloor(floorNumber)
        && queryHistory == old(queryHistory) + [LogEntry(now, FloorQuery, "Floor " + IntToString(floorNumber), |files|)]
    {
      FloorTablesAgree();
      if floorNumber !in LIBRARY_FLOORS {
        return [];
      }
      files := FilesByFloor(floorNumber);
      var query := "Floor " + IntToString(floorNumber);
      LogQuery(FloorQuery, query, |files|, now);
    }

    /**
     * The files of every tag key containing the lower-cased `tag`, key after
     * key; one `tag` entry is logged even when nothing matched.
     */
    method SearchByTag(tag: string, now: string) returns (files: seq<FileRef>)
      modifies this
      ensures files == SearchTag(tag)
      ensures queryHistory == old(queryHistory) + [LogEntry(now, TagQuery, tag, |files|)]
    {
      var matchingTag := Lower(tag);
      files := [];
      var i := 0;
      while i < |TAG_MAPPING|
        invariant 0 <= i <= |TAG_MAPPING|
        invariant files == TagFiles(TAG_MAPPING[..i], matchingTag)
      {
        var (key, fileList) := TAG_MAPPING[i];
        if Contains(key, matchingTag) {
          files := files + KeyFiles(key, fileList);
        }
        assert TAG_MAPPING[..i + 1][..i] == TAG_MAPPING[..i];
        i := i + 1;
      }
      assert TAG_MAPPING[..i] == TAG_MAPPING;
      LogQuery(TagQuery, tag, |files|, now);
    }

    /**
     * The greedy walk from the lower-cased `concept`: at most `maxHops`
     * iterations, stopping at a node already visited; each iteration
     * reports all connections of the current node and moves to the
     * lower-cased label of the first one. One `related_concepts` entry is
     * logged. The hop budget defaults to 2.
     */
    method GetRelatedConcepts(concept: string, now: string, maxHops: int := 2) returns (related: seq<Related>)
      modifies this
      ensures related == RelatedConcepts(graph, concept, maxHops)
      ensures maxHops <= 0 ==> related == []
      ensures forall k :: 0 <= k < |related| ==> related[k].id in graph.nodes
      ensures queryHistory == old(queryHistory) + [LogEntry(now, RelatedQuery, concept, |related|)]
    {
      var currentNode := Lower(concept);
      var visited: set<string> := {};
      related := [];
      var hop := 0;
      while hop < maxHops
        invariant 0 <= hop && (hop <= maxHops || hop == 0)
        invariant related + Walk(graph, currentNode, visited, maxHops - hop) == RelatedConcepts(graph, concept, maxHops)
        invariant queryHistory == old(queryHistory)
      {
        if currentNode in visited {
          break;
        }
        ghost var before, here, seen := related, currentNode, visited;
        visited := visited + {currentNode};
        var connections := GetConnections(currentNode);
        if connections != [] {
          related := related + connections;
          currentNode := Lower(connections[0].labelText);
        }
        WalkStep(graph, connections, before, here, seen, maxHops - hop, related, currentNode);
        hop := hop + 1;
      }
      WalkDone(graph, currentNode, visited, maxHops - hop);
      RelatedIdsAreKeys(graph, concept, maxHops);
      if maxHops <= 0 {
        NoHopsNoResult(graph, concept, maxHops);
      }
      LogQuery(RelatedQuery, concept, |related|, now);
    }

    /** The log so far, in call order. */
    method GetQueryHistory() returns (history: seq<LogEntry>)
      ensures history == queryHistory
    {
      history := queryHistory;
    }

    /** Per-type counts of the log; the bare `{0, {}}` form, without a session start, when it is empty. */
    method GetSessionSummary() returns (summary: SessionSummary)
      ensures summary == Summarize(queryHistory, sessionStart)
    {
      if queryHistory == [] {
        return SessionSummary(None, 0, map[]);
      }
      var byType: map<QueryType, nat> := map[];
      var i := 0;
      while i < |queryHistory|
        invariant 0 <= i <= |queryHistory|
        invariant byType == ByType(queryHistory[..i])
      {
        var qtype := queryHistory[i].queryType;
        ByTypeAppend(queryHistory[..i], queryHistory[i]);
        assert queryHistory[..i + 1] == queryHistory[..i] + [queryHistory[i]];
        byType := byType[qtype := CountIn(byType, qtype) + 1];
        i := i + 1;
      }
      assert queryHistory[..i] == queryHistory;
      summary := SessionSummary(Some(sessionStart), |queryHistory|, byType);
    }

    /** The nodes whose lower-cased label or id contains `term`, in key order. */
    method SearchKnowledgeGraph(term: string) returns (matching: seq<Node>)
      ensures matching == MatchingNodes(graph, term)
    {
      matching := [];
      var i := 0;
      while i < |graph.ids|
        invariant 0 <= i <= |graph.ids|
        invariant matching == MatchIds(graph.ids[..i], graph.nodes, term)
      {
        var nodeId := graph.ids[i];
        var nodeData := graph.nodes[nodeId];
        var lowerLabel := Lower(LabelOr(nodeData, ""));
        if Contains(lowerLabel, term) || Contains(Lower(nodeId), term) {
          matching := matching + [nodeData];
        }
        assert graph.ids[..i + 1][..i] == graph.ids[..i];
        i := i + 1;
      }
      assert graph.ids[..i] == graph.ids;
    }

    /** One `{name, concept, floor}` record per file location, node after node. */
    method ExtractFilesFromNodes(nodes: seq<Node>) returns (files: seq<FileRef>)
      ensures files == ExtractFiles(nodes)
    {
      files := [];
      var i := 0;
      while i < |nodes|
        invariant 0 <= i <= |nodes|
        invariant files == ExtractFiles(nodes[..i])
      {
        var node := nodes[i];
        var fileLocs := node.fileLocations;
        var j := 0;
        while j < |fileLocs|
          invariant 0 <= j <= |fileLocs|
          invariant files == ExtractFiles(nodes[..i]) + NodeFiles(node)[..j]
        {
          files := files + [ConceptFile(fileLocs[j], node.labelText, node.floor)];
          j := j + 1;
        }
        assert NodeFiles(node)[..j] == NodeFiles(node);
        assert nodes[..i + 1][..i] == nodes[..i];
        i := i + 1;
      }
      assert nodes[..i] == nodes;
    }

    /** The `{id, label, files}` records of the existing targets of a node's edges. */
    method GetConnections(nodeId: string) returns (connectedNodes: seq<Related>)
      ensures connectedNodes == Connections(graph, nodeId)
    {
      if nodeId !in graph.nodes {
        return [];
      }
      var node := graph.nodes[nodeId];
      var connections := node.connectsTo;
      connectedNodes := [];
      var i := 0;
      while i < |connections|
        invariant 0 <= i <= |connections|
        invariant connectedNodes == ResolveLinks(graph.nodes, connections[..i])
      {
        var connId := connections[i];
        if connId in graph.nodes {
          var connected := graph.nodes[connId];
          connectedNodes := connectedNodes + [Related(connId, LabelOr(connected, connId), connected.fileLocations)];
        }
        assert connections[..i + 1] == connections[..i] + [connId];
        ResolveLinksAppend(graph.nodes, connections[..i], connId);
        i := i + 1;
      }
      assert connections[..i] == connections;
    }

    /** Appends exactly one entry at the end of the log; earlier entries stay as they were. */
    method LogQuery(queryType: QueryType, query: string, resultsCount: nat, now: string)
      modifies this
      ensures queryHistory == old(queryHistory) + [LogEntry(now, queryType, query, resultsCount)]
      ensures queryHistory[..|old(queryHistory)|] == old(queryHistory)
    {
      queryHistory := queryHistory + [LogEntry(now, queryType, query, resultsCount)];
    }
  }
}
