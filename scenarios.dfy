/**
 * A two-node graph worked through the concept search and the walk:
 * `a` (label "Career", one file, linking to `b`) and `b` (label "Skills",
 * linking back to `a`).
 */
module Scenarios {
  import opened Wrappers
  import opened Text
  import opened KnowledgeGraph
  import opened ConceptSearch
  import opened RelatedWalk

  const NODE_A: Node := Node(Some("Career"), None, ["x.md"], ["b"])
  const NODE_B: Node := Node(Some("Skills"), None, [], ["a"])
  const TWO_NODES: Graph := GraphData(["a", "b"], map["a" := NODE_A, "b" := NODE_B])

  /** "career" matches node `a` through its label, and yields its one file with label and no floor. */
  lemma CareerSearch()
    ensures SearchConcept(TWO_NODES, "career") == [ConceptFile("x.md", Some("Career"), None)]
  {
    assert Lower("career") == "career";
    assert Lower("Career") == "career";
    assert Lower("Skills") == "skills";
    assert Lower("a") == "a" && Lower("b") == "b";
    PrefixIsContained("career", "career");
    assert !Contains("skills", "career") by {
      assert "skills"[0..][0] == 's' != 'c';
      assert !StartsWith("skills"[0..], "career");
    }
    assert NodeMatches("career", "a", NODE_A);
    assert !NodeMatches("career", "b", NODE_B);
    assert TWO_NODES.ids[..1] == ["a"];
    assert MatchingNodes(TWO_NODES, "career") == [NODE_A];
    assert NodeFiles(NODE_A) == [ConceptFile("x.md", Some("Career"), None)];
    assert [NODE_A][..0] == [];
    assert ExtractFiles([NODE_A]) == NodeFiles(NODE_A);
  }

  /**
   * From `a` with two hops: the first hop reports `b`; the walk moves to the
   * lower-cased label "skills", which is not a key, so the second hop finds
   * nothing.
   */
  lemma WalkFromA()
    ensures RelatedConcepts(TWO_NODES, "a", 2) == [Related("b", "Skills", [])]
    ensures Trail(TWO_NODES, "a", {}, 2) == ["a", "skills"]
  {
    assert Lower("a") == "a";
    assert ["b"][..0] == [];
    assert Connections(TWO_NODES, "a") == [Related("b", "Skills", [])];
    assert Lower("Skills") == "skills";
    assert NextNode(TWO_NODES, "a") == "skills";
    assert Connections(TWO_NODES, "skills") == [];
  }
}
