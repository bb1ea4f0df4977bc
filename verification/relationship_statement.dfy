/** Rendering of a relationship pattern `(source)-[var:TYPE {params}]->(target)`
    from a relation field. The node statements, the parameter serializer,
    `padLeft` and the statement joiner are collaborators whose bodies are not
    part of this model; they arrive as the functions of a `Helpers` value. */
module RelationshipStatement {
  import opened Wrappers
  import opened Values
  import opened Schema

  /** A piece of query text with the parameters it introduces. */
  datatype Statement = Statement(text: string, params: Params)

  /** What the caller says about a node of the pattern. */
  datatype NodeOptions = NodeOptions(varName: Option<string>, node: Option<NodeDesc>, parameters: Option<Params>)

  /** What the caller says about the relationship of the pattern. */
  datatype TargetRelation = TargetRelation(varName: Option<string>, relationField: RelationField, parameters: Option<Params>)

  datatype Helpers = Helpers(
    serializeParameters: (string, Option<Params>) -> Statement,
    padLeft: string -> string,
    buildNodeStatement: NodeOptions -> Statement,
    joinStatements: (seq<Statement>, string) -> Statement)

  /** Connector left of the brackets. */
  function LeftConnection(direction: Direction, directed: bool): (c: string)
    ensures c == "<-" <==> directed && direction == IN
    ensures c == "-" <==> !(directed && direction == IN)
  {
    if directed && direction == IN then "<-" else "-"
  }

  /** Connector right of the brackets. */
  function RightConnection(direction: Direction, directed: bool): (c: string)
    ensures c == "->" <==> directed && direction == OUT
    ensures c == "-" <==> !(directed && direction == OUT)
  {
    if directed && direction == OUT then "->" else "-"
  }

  /** `:TYPE` when the relationship has a type, nothing otherwise. */
  function RelationshipLabel(relType: string): (lbl: string)
    ensures lbl == "" <==> relType == ""
    ensures relType != "" ==> lbl[0] == ':' && lbl[1..] == relType
  {
    if relType != "" then ":" + relType else ""
  }

  /** The variable name, `""` when none is given. */
  function VarNameOf(rel: TargetRelation): (v: string)
    // an absent variable name renders as nothing
    ensures rel.varName.None? ==> v == ""
    ensures rel.varName.Some? ==> v == rel.varName.value
  {
    if rel.varName.Some? then rel.varName.value else ""
  }

  /** The parameter prefix of the relationship's inline properties. */
  function RelationParameterPrefix(varName: string): (prefix: string)
    ensures |prefix| == |varName| + 13
    ensures prefix[..|varName|] == varName
    ensures prefix[|varName|..] == "_relationship"
  {
    varName + "_relationship"
  }

  function SerializeRelationParameters(h: Helpers, varName: string, parameters: Option<Params>): Statement {
    h.serializeParameters(RelationParameterPrefix(varName), parameters)
  }

  /** The relationship parameters of two different relationship variables
      are serialized under different prefixes. */
  lemma DistinctRelationPrefixes(a: string, b: string)
    ensures RelationParameterPrefix(a) == RelationParameterPrefix(b) <==> a == b
  {
    if RelationParameterPrefix(a) == RelationParameterPrefix(b) {
      assert |a| == |b|;
      assert a == RelationParameterPrefix(a)[..|a|];
    }
  }

  function GetRelationshipSubStatement(h: Helpers, rel: TargetRelation, directed: bool): (st: Statement)
    ensures var v := VarNameOf(rel);
            var serialized := SerializeRelationParameters(h, v, rel.parameters);
            && st.params == serialized.params
            && st.text == LeftConnection(rel.relationField.direction, directed)
                          + "[" + v + RelationshipLabel(rel.relationField.relType)
                          + h.padLeft(serialized.text) + "]"
                          + RightConnection(rel.relationField.direction, directed)
  {
    var leftConnection := LeftConnection(rel.relationField.direction, directed);
    var rightConnection := RightConnection(rel.relationField.direction, directed);
    var relationshipLabel := RelationshipLabel(rel.relationField.relType);
    var varName := VarNameOf(rel);
    var relParams := SerializeRelationParameters(h, varName, rel.parameters);
    var relTypeStr := "[" + varName + relationshipLabel + h.padLeft(relParams.text) + "]";
    Statement(leftConnection + relTypeStr + rightConnection, relParams.params)
  }

  /** `directed` defaults to true when the caller leaves it out. */
  function Directed(directed: Option<bool>): (d: bool)
    ensures d == false <==> directed == Some(false)
  {
    if directed.Some? then directed.value else true
  }

  function BuildRelationshipStatement(
    h: Helpers, sourceNode: NodeOptions, targetNode: NodeOptions,
    relationship: TargetRelation, directed: Option<bool>): (st: Statement)
    ensures st == h.joinStatements(
      [h.buildNodeStatement(sourceNode),
       GetRelationshipSubStatement(h, relationship, Directed(directed)),
       h.buildNodeStatement(targetNode)], "")
  {
    var relationshipStatement := GetRelationshipSubStatement(h, relationship, Directed(directed));
    var sourceNodeStatement := h.buildNodeStatement(sourceNode);
    var targetNodeStatement := h.buildNodeStatement(targetNode);
    h.joinStatements([sourceNodeStatement, relationshipStatement, targetNodeStatement], "")
  }

  /** The arrow glyphs can be read back from the rendered relationship,
      whatever the variable, type and parameters: it opens with `<` exactly
      for a directed IN relationship, closes with `>` exactly for a directed
      OUT one, and otherwise opens and closes with a plain dash. */
  lemma {:induction false} ArrowsReadBack(h: Helpers, rel: TargetRelation, directed: bool)
    ensures var t := GetRelationshipSubStatement(h, rel, directed).text;
            && |t| >= 4
            && (t[0] == '<' <==> directed && rel.relationField.direction == IN)
            && (t[0] != '<' ==> t[0] == '-')
            && (t[|t| - 1] == '>' <==> directed && rel.relationField.direction == OUT)
            && (t[|t| - 1] != '>' ==> t[|t| - 1] == '-')
  {
    var d := rel.relationField.direction;
    var left := LeftConnection(d, directed);
    var right := RightConnection(d, directed);
    var v := VarNameOf(rel);
    var middle := "[" + v + RelationshipLabel(rel.relationField.relType)
                  + h.padLeft(SerializeRelationParameters(h, v, rel.parameters).text) + "]";
    var t := GetRelationshipSubStatement(h, rel, directed).text;
    assert t == left + middle + right;
    assert t[0] == left[0];
    assert t[|t| - 1] == right[|right| - 1];
  }

  /** An undirected relationship renders the same for both directions. */
  lemma UndirectedIgnoresDirection(h: Helpers, rel: TargetRelation)
    ensures GetRelationshipSubStatement(h, rel.(relationField := rel.relationField.(direction := IN)), false)
         == GetRelationshipSubStatement(h, rel.(relationField := rel.relationField.(direction := OUT)), false)
  {
  }
}
