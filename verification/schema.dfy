/** The read-only schema metadata the compilers consult: node descriptors,
    their relation fields and the context's node list. Only the parts the
    where compilers and the pattern builder read are kept. */
module Schema {
  import opened Wrappers
  import opened Seqs

  /** Direction of a relationship as declared by `@relationship`. */
  datatype Direction = IN | OUT

  /** A relation field of a node type: the GraphQL field name, the name of
      the type it points at, the declared direction and relationship type. */
  datatype RelationField = RelationField(
    fieldName: string,
    typeName: string,
    direction: Direction,
    relType: string)

  /** A node descriptor: type name, the labels `getLabels` yields and the
      relation fields. */
  datatype NodeDesc = NodeDesc(
    name: string,
    labels: seq<string>,
    relationFields: seq<RelationField>)

  /** The part of the request context the compilers read. */
  datatype Context = Context(nodes: seq<NodeDesc>)

  /** The first node called `name`. */
  function FindNode(nodes: seq<NodeDesc>, name: string): (r: Option<NodeDesc>)
    ensures r.Some? <==> exists j :: 0 <= j < |nodes| && nodes[j].name == name
    ensures r.Some? ==> r.value in nodes && r.value.name == name
  {
    Find(nodes, (n: NodeDesc) => n.name == name)
  }

  /** The first relation field called `fieldName`. */
  function FindRelationField(fields: seq<RelationField>, fieldName: string): (r: Option<RelationField>)
    ensures r.Some? <==> exists j :: 0 <= j < |fields| && fields[j].fieldName == fieldName
    ensures r.Some? ==> r.value in fields && r.value.fieldName == fieldName
  {
    Find(fields, (f: RelationField) => f.fieldName == fieldName)
  }
}
