/** The indentation prefix used when pretty-printing an element (`nodeIdent`). */
module Indentation {
  import opened Wrappers
  import opened Strings
  import opened Elements

  /** Nothing for the value of a `JProperty`; otherwise one tab per level of `depth`. */
  function NodeIdent(nodes: seq<Node>, e: NodeId): string
    requires WellFormed(nodes) && e < |nodes|
  {
    if nodes[e].parent.Some? && IsProperty(nodes, nodes[e].parent.value) then ""
    else Repeat("\t", Depth(nodes, e))
  }

  /**
   * The prefix is tabs only; it is empty for a property's value and for a
   * root; otherwise it has one tab per ancestor that is not a property.
   */
  lemma NodeIdentShape(nodes: seq<Node>, e: NodeId)
    requires WellFormed(nodes) && e < |nodes|
    ensures forall k :: 0 <= k < |NodeIdent(nodes, e)| ==> NodeIdent(nodes, e)[k] == '\t'
    ensures nodes[e].parent.Some? && IsProperty(nodes, nodes[e].parent.value) ==> NodeIdent(nodes, e) == ""
    ensures nodes[e].parent.None? ==> NodeIdent(nodes, e) == ""
    ensures !(nodes[e].parent.Some? && IsProperty(nodes, nodes[e].parent.value)) ==>
      |NodeIdent(nodes, e)| == CountNonProperty(nodes, Ancestors(nodes, e))
  {
    DepthCountsNonPropertyAncestors(nodes, e);
    DepthRecurrence(nodes, e);
    var r := NodeIdent(nodes, e);
    forall k | 0 <= k < |r|
      ensures r[k] == '\t'
    {
      RepeatCharAt('\t', Depth(nodes, e), k);
    }
  }

  /** In a tree built by the element constructors every prefix is empty. */
  lemma BuiltTreesAreFlush(nodes: seq<Node>, e: NodeId)
    requires WellFormed(nodes) && ParentsAreOwners(nodes) && e < |nodes|
    ensures NodeIdent(nodes, e) == ""
  {
    OwnedDepthIsZero(nodes, e);
  }
}
