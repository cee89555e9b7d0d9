/**
 * The knowledge graph as loaded from `knowledge_graph.nodes`: a dictionary
 * from node id to node record, kept in its insertion order, and the result
 * records the queries return.
 */
module KnowledgeGraph {
  import opened Wrappers

  /**
   * One concept node (`labelText` holds the JSON `label`; `label` is a
   * Dafny keyword). A missing `label` or `floor` is `None`; a missing
   * `file_locations` or `connects_to` list reads as the empty list, exactly
   * as the lookups with a default `[]` do.
   */
  datatype Node = Node(
    labelText: Option<string>,
    floor: Option<int>,
    fileLocations: seq<string>,
    connectsTo: seq<string>)

  /** The node mapping: `ids` is the dictionary's key order, `nodes` its content. */
  datatype GraphData = GraphData(ids: seq<string>, nodes: map<string, Node>) {
    /** Dictionary keys are distinct, and the key order lists exactly the keys. */
    predicate WellFormed() {
      && (forall i, j :: 0 <= i < j < |ids| ==> ids[i] != ids[j])
      && (forall i :: 0 <= i < |ids| ==> ids[i] in nodes)
      && (forall k {:trigger k in ids} :: k in nodes ==> k in ids)
    }
  }

  type Graph = g: GraphData | g.WellFormed() witness GraphData([], map[])

  /** The graph a missing knowledge-graph file degrades to. */
  const EMPTY_GRAPH: Graph := GraphData([], map[])

  /**
   * A file reference. Each entry point fills in its own fields: the concept
   * search `{name, concept, floor}`, the floor search `{name, floor}`, the tag
   * search `{name, tag}`.
   */
  datatype FileRef =
    | ConceptFile(name: string, concept: Option<string>, nodeFloor: Option<int>)
    | FloorFile(name: string, floor: int)
    | TagFile(name: string, tag: string)

  /** A neighbour reported by the related-concept walk: `{id, label, files}`. */
  datatype Related = Related(id: string, labelText: string, files: seq<string>)

  /** `node.get('label', default)`. */
  function LabelOr(n: Node, default: string): (l: string)
    ensures n.labelText.Some? ==> l == n.labelText.value
    ensures n.labelText.None? ==> l == default
  {
    n.labelText.GetOr(default)
  }
}
