/** Node and relationship references of the cypher builder: a node
    reference is a variable with prefix "this" and a list of labels; a
    named node additionally carries a fixed id. */
module NodeRefs {
  import opened Wrappers

  /** Prefix every node variable is created with. */
  const NodePrefix: string := "this"

  /** A node reference. Each `new` allocates a distinct object; `ref` stands
      for that object identity and is supplied by whoever allocates. */
  datatype NodeRef = NodeRef(prefix: string, labels: seq<string>, id: Option<string>, ref: nat)

  /** A relationship between two node references, optionally typed. */
  datatype RelationshipRef = RelationshipRef(source: NodeRef, target: NodeRef, relType: Option<string>)

  /** Per-element options of a match pattern: whether to print the
      variable and whether to print the labels (absent means default). */
  datatype ElementOptions = ElementOptions(variable: Option<bool>, labels: Option<bool>)

  /** A pattern that starts at a node, with the options for its source. */
  datatype Pattern = Pattern(origin: NodeRef, source: Option<ElementOptions>)

  /** `new NodeRef({labels})` allocated as object `ref`: labels default to
      the empty list. */
  function NewNodeRef(labels: Option<seq<string>>, ref: nat): (n: NodeRef)
    ensures n.prefix == NodePrefix
    ensures labels.None? ==> n.labels == []
    ensures labels.Some? ==> n.labels == labels.value
    ensures n.id.None?
    ensures n.ref == ref
  {
    NodeRef(NodePrefix, if labels.Some? then labels.value else [], None, ref)
  }

  /** `new NamedNode(id, options)`: a node reference whose id is fixed. */
  function NamedNode(id: string, labels: Option<seq<string>>, ref: nat): (n: NodeRef)
    ensures n.id == Some(id)
    ensures n.prefix == NodePrefix
    ensures n.labels == NewNodeRef(labels, ref).labels
    ensures n.ref == ref
  {
    NewNodeRef(labels, ref).(id := Some(id))
  }

  /** `a.relatedTo(b)`: an untyped relationship from `a` to `b`. */
  function RelatedTo(a: NodeRef, b: NodeRef): (r: RelationshipRef)
    ensures r.source == a && r.target == b
    ensures r.relType.None?
  {
    RelationshipRef(a, b, None)
  }

  /** `n.pattern(options)`: a pattern rooted at `n`. */
  function PatternOf(n: NodeRef, source: Option<ElementOptions>): (p: Pattern)
    ensures p.origin == n && p.source == source
  {
    Pattern(n, source)
  }
}
