/**
 * The related-concept walk: neighbour resolution that skips dangling edges,
 * and the bounded single-path greedy walk over it.
 */
module RelatedWalk {
  import opened Wrappers
  import opened Text
  import opened KnowledgeGraph

  /** The record for one edge target, or nothing when the id is not a key (a dangling edge). */
  function Resolve(nodes: map<string, Node>, id: string): seq<Related> {
    if id in nodes then [Related(id, LabelOr(nodes[id], id), nodes[id].fileLocations)] else []
  }

  /** The records of the edge targets that exist, in edge order. */
  function ResolveLinks(nodes: map<string, Node>, targets: seq<string>): seq<Related>
    decreases |targets|
  {
    if targets == [] then []
    else Resolve(nodes, targets[0]) + ResolveLinks(nodes, targets[1..])
  }

  /** `_get_connections`: nothing for an id that is not a key, else the resolved edges. */
  function Connections(g: Graph, nodeId: string): seq<Related> {
    if nodeId in g.nodes then ResolveLinks(g.nodes, g.nodes[nodeId].connectsTo) else []
  }

  /** Number of outgoing edges, dangling ones included; 0 for an id that is not a key. */
  function OutDegree(g: Graph, nodeId: string): nat {
    if nodeId in g.nodes then |g.nodes[nodeId].connectsTo| else 0
  }

  /** Resolving one more edge target appends its record, if any, to those of the earlier ones. */
  lemma {:induction false} ResolveLinksAppend(nodes: map<string, Node>, targets: seq<string>, t: string)
    ensures ResolveLinks(nodes, targets + [t]) == ResolveLinks(nodes, targets) + Resolve(nodes, t)
    decreases |targets|
  {
    if targets == [] {
      assert [t][1..] == [];
    } else {
      assert (targets + [t])[1..] == targets[1..] + [t];
      ResolveLinksAppend(nodes, targets[1..], t);
    }
  }

  /** Each resolved record is an existing target with its label (or id) and files, and there is one per existing target. */
  lemma {:induction false} ResolveLinksSound(nodes: map<string, Node>, targets: seq<string>)
    ensures |ResolveLinks(nodes, targets)| <= |targets|
    ensures forall k :: 0 <= k < |ResolveLinks(nodes, targets)| ==>
      var r := ResolveLinks(nodes, targets)[k];
      r.id in nodes && r.id in targets
      && r.labelText == LabelOr(nodes[r.id], r.id) && r.files == nodes[r.id].fileLocations
    ensures (forall t :: t in targets ==> t !in nodes) <==> ResolveLinks(nodes, targets) == []
    decreases |targets|
  {
    if targets != [] {
      var rest := targets[1..];
      ResolveLinksSound(nodes, rest);
      assert forall t :: t in rest ==> t in targets;
      assert targets == [targets[0]] + rest;
    }
  }

  /** Every existing target shows up among the resolved records. */
  lemma {:induction false} ResolveLinksComplete(nodes: map<string, Node>, targets: seq<string>, t: string)
    requires t in targets && t in nodes
    ensures exists k :: 0 <= k < |ResolveLinks(nodes, targets)| && ResolveLinks(nodes, targets)[k].id == t
    decreases |targets|
  {
    var first := targets[0];
    var rest := targets[1..];
    if t == first {
      assert ResolveLinks(nodes, targets)[0].id == t;
    } else {
      assert t in rest by { assert targets == [first] + rest; }
      ResolveLinksComplete(nodes, rest, t);
      var k :| 0 <= k < |ResolveLinks(nodes, rest)| && ResolveLinks(nodes, rest)[k].id == t;
      assert ResolveLinks(nodes, targets)[|Resolve(nodes, first)| + k].id == t;
    }
  }

  /**
   * The connections of a node are exactly its non-dangling edges: each is a
   * key of the graph that the node links to, there are no more of them than
   * edges, and every linked key is among them.
   */
  lemma ConnectionsSpec(g: Graph, nodeId: string)
    ensures |Connections(g, nodeId)| <= OutDegree(g, nodeId)
    ensures forall k :: 0 <= k < |Connections(g, nodeId)| ==>
      var r := Connections(g, nodeId)[k];
      nodeId in g.nodes && r.id in g.nodes && r.id in g.nodes[nodeId].connectsTo
      && r.labelText == LabelOr(g.nodes[r.id], r.id) && r.files == g.nodes[r.id].fileLocations
    ensures forall t :: nodeId in g.nodes && t in g.nodes[nodeId].connectsTo && t in g.nodes ==>
      exists k :: 0 <= k < |Connections(g, nodeId)| && Connections(g, nodeId)[k].id == t
  {
    if nodeId in g.nodes {
      ResolveLinksSound(g.nodes, g.nodes[nodeId].connectsTo);
      assert Connections(g, nodeId) == ResolveLinks(g.nodes, g.nodes[nodeId].connectsTo);
      forall t | t in g.nodes[nodeId].connectsTo && t in g.nodes
        ensures exists k :: 0 <= k < |Connections(g, nodeId)| && Connections(g, nodeId)[k].id == t
      {
        ResolveLinksComplete(g.nodes, g.nodes[nodeId].connectsTo, t);
      }
    }
  }

  /** Where the walk goes after `current`: the first connection's lower-cased label, or nowhere new. */
  function NextNode(g: Graph, current: string): string {
    var c := Connections(g, current);
    if c == [] then current else Lower(c[0].labelText)
  }

  /**
   * The walk with `hops` iterations left: stop when out of hops or back at a
   * visited node, otherwise report all connections of `current` and go on
   * from `NextNode`.
   */
  function Walk(g: Graph, current: string, visited: set<string>, hops: int): seq<Related>
    decreases hops
  {
    if hops <= 0 || current in visited then []
    else Connections(g, current) + Walk(g, NextNode(g, current), visited + {current}, hops - 1)
  }

  /**
   * One iteration of the walk: reporting the current node's connections and
   * moving on to its next node leaves the rest of the walk to do.
   */
  lemma WalkStep(g: Graph, connections: seq<Related>, related: seq<Related>, current: string, visited: set<string>,
                 hops: int, related': seq<Related>, current': string)
    requires hops > 0 && current !in visited
    requires connections == Connections(g, current)
    requires connections != [] ==> related' == related + connections && current' == Lower(connections[0].labelText)
    requires connections == [] ==> related' == related && current' == current
    ensures related' + Walk(g, current', visited + {current}, hops - 1) == related + Walk(g, current, visited, hops)
  {
    var rest := Walk(g, current', visited + {current}, hops - 1);
    assert current' == NextNode(g, current);
    assert related + connections + rest == related + (connections + rest);
  }

  /** The walk stops once the budget is spent or the current node was visited before. */
  lemma WalkDone(g: Graph, current: string, visited: set<string>, hops: int)
    requires hops <= 0 || current in visited
    ensures Walk(g, current, visited, hops) == []
  {
  }

  /** The nodes the walk processes, in order. */
  function Trail(g: Graph, current: string, visited: set<string>, hops: int): seq<string>
    decreases hops
  {
    if hops <= 0 || current in visited then []
    else [current] + Trail(g, NextNode(g, current), visited + {current}, hops - 1)
  }

  /** `get_related_concepts(start, maxHops)`, result only. */
  function RelatedConcepts(g: Graph, start: string, maxHops: int): seq<Related> {
    Walk(g, Lower(start), {}, maxHops)
  }

  /** The connections of every node of a trail, concatenated. */
  function ConcatConnections(g: Graph, trail: seq<string>): seq<Related>
    decreases |trail|
  {
    if trail == [] then [] else Connections(g, trail[0]) + ConcatConnections(g, trail[1..])
  }

  /** The out-degrees of the nodes of a trail, summed. */
  function SumOutDegree(g: Graph, trail: seq<string>): nat
    decreases |trail|
  {
    if trail == [] then 0 else OutDegree(g, trail[0]) + SumOutDegree(g, trail[1..])
  }

  /** A budget of zero or less gives nothing. */
  lemma NoHopsNoResult(g: Graph, start: string, maxHops: int)
    requires maxHops <= 0
    ensures RelatedConcepts(g, start, maxHops) == []
  {
  }

  /**
   * The walk processes at most `hops` nodes, never one it has visited before
   * and never the same one twice; each processed node but the last one had
   * connections, so it is a key of the graph, and the next one is the
   * lower-cased label of its first connection.
   */
  lemma {:induction false} TrailShape(g: Graph, current: string, visited: set<string>, hops: int)
    ensures var t := Trail(g, current, visited, hops);
      && (hops <= 0 ==> t == [])
      && (hops > 0 ==> |t| <= hops)
      && (forall k :: 0 <= k < |t| ==> t[k] !in visited)
      && (forall k, m :: 0 <= k < m < |t| ==> t[k] != t[m])
      && (forall k :: 0 <= k < |t| - 1 ==>
            (Connections(g, t[k]) != [] && t[k] in g.nodes
             && t[k + 1] == Lower(Connections(g, t[k])[0].labelText)))
      && (t != [] ==> t[0] == current)
    decreases hops
  {
    if !(hops <= 0 || current in visited) {
      var next := NextNode(g, current);
      TrailShape(g, next, visited + {current}, hops - 1);
      var rest := Trail(g, next, visited + {current}, hops - 1);
      var t := Trail(g, current, visited, hops);
      assert t == [current] + rest;
      if rest != [] {
        assert rest[0] == next && next != current;
        assert Connections(g, current) != [] && current in g.nodes;
      }
    }
  }

  /** The walk's result is the concatenated connections of the nodes it processes. */
  lemma {:induction false} WalkAlongTrail(g: Graph, current: string, visited: set<string>, hops: int)
    ensures Walk(g, current, visited, hops) == ConcatConnections(g, Trail(g, current, visited, hops))
    decreases hops
  {
    if !(hops <= 0 || current in visited) {
      var next := NextNode(g, current);
      WalkAlongTrail(g, next, visited + {current}, hops - 1);
      var t := Trail(g, current, visited, hops);
      assert t[0] == current && t[1..] == Trail(g, next, visited + {current}, hops - 1);
    }
  }

  /** Concatenated connections are never more than the edges of the nodes, and all name existing keys. */
  lemma {:induction false} ConcatConnectionsBound(g: Graph, trail: seq<string>)
    ensures |ConcatConnections(g, trail)| <= SumOutDegree(g, trail)
    ensures forall k :: 0 <= k < |ConcatConnections(g, trail)| ==> ConcatConnections(g, trail)[k].id in g.nodes
    decreases |trail|
  {
    if trail != [] {
      ConcatConnectionsBound(g, trail[1..]);
      ConnectionsSpec(g, trail[0]);
      var c := Connections(g, trail[0]);
      var rest := ConcatConnections(g, trail[1..]);
      var both: seq<Related> := c + rest;
      assert ConcatConnections(g, trail) == both;
      forall k | 0 <= k < |both| ensures both[k].id in g.nodes {
        if k >= |c| { assert both[k] == rest[k - |c|]; }
      }
    }
  }

  /**
   * What the walk returns: nothing for a budget of zero or less; otherwise no
   * more records than the summed out-degrees of the at most `maxHops` nodes
   * processed, each record naming an existing key.
   */
  lemma RelatedConceptsBound(g: Graph, start: string, maxHops: int)
    ensures var trail := Trail(g, Lower(start), {}, maxHops);
      && (maxHops <= 0 ==> RelatedConcepts(g, start, maxHops) == [])
      && |trail| <= (if maxHops > 0 then maxHops else 0)
      && |RelatedConcepts(g, start, maxHops)| <= SumOutDegree(g, trail)
      && forall k :: 0 <= k < |RelatedConcepts(g, start, maxHops)| ==> RelatedConcepts(g, start, maxHops)[k].id in g.nodes
  {
    TrailShape(g, Lower(start), {}, maxHops);
    WalkAlongTrail(g, Lower(start), {}, maxHops);
    ConcatConnectionsBound(g, Trail(g, Lower(start), {}, maxHops));
  }
  /** Every concept the walk reports is a key of the graph. */
  lemma RelatedIdsAreKeys(g: Graph, start: string, maxHops: int)
    ensures forall k :: 0 <= k < |RelatedConcepts(g, start, maxHops)| ==> RelatedConcepts(g, start, maxHops)[k].id in g.nodes
  {
    RelatedConceptsBound(g, start, maxHops);
  }


  /** A hop with no connections ends the walk: the node is visited, the next iteration stops there. */
  lemma DeadEndStops(g: Graph, current: string, visited: set<string>, hops: int)
    requires hops > 0 && current !in visited && Connections(g, current) == []
    ensures NextNode(g, current) == current
    ensures Trail(g, current, visited, hops) == [current]
    ensures Walk(g, current, visited, hops) == []
  {
  }

  lemma {:induction false} DistinctCard(s: seq<string>)
    requires forall k, m :: 0 <= k < m < |s| ==> s[k] != s[m]
    ensures |set x | x in s| == |s|
    decreases |s|
  {
    if s != [] {
      var init := s[..|s| - 1];
      DistinctCard(init);
      assert (set x | x in s) == (set x | x in init) + {s[|s| - 1]};
      assert s[|s| - 1] !in (set x | x in init);
    }
  }

  /** A repetition-free list of keys is no longer than the key set. */
  lemma DistinctKeysBound(s: seq<string>, keys: set<string>)
    requires forall k, m :: 0 <= k < m < |s| ==> s[k] != s[m]
    requires forall k :: 0 <= k < |s| ==> s[k] in keys
    ensures |s| <= |keys|
  {
    DistinctCard(s);
    var elems := set x | x in s;
    SubsetCard(elems, keys);
  }

  lemma {:induction false} SubsetCard(a: set<string>, b: set<string>)
    requires a <= b
    ensures |a| <= |b|
    decreases |a|
  {
    if a != {} {
      var x :| x in a;
      SubsetCard(a - {x}, b - {x});
    }
  }

  /**
   * However large the budget, the walk processes at most one node more than
   * the graph has: all processed nodes are distinct and all but the last are keys.
   */
  lemma TrailBoundedByGraph(g: Graph, start: string, maxHops: int)
    ensures |Trail(g, Lower(start), {}, maxHops)| <= |g.nodes| + 1
  {
    var t := Trail(g, Lower(start), {}, maxHops);
    TrailShape(g, Lower(start), {}, maxHops);
    if t != [] {
      var init := t[..|t| - 1];
      assert forall k :: 0 <= k < |init| ==> init[k] == t[k];
      DistinctKeysBound(init, g.nodes.Keys);
    }
  }
}
