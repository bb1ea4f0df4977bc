/** The legacy where compiler: lowers a GraphQL `where` filter into a flat
    list of where items of the legacy cypher builder. Leaf keys are compiled
    first, in the order they appear; then every `AND`/`OR` key adds one
    combined item. Relation fields become an existence test plus a
    quantified list predicate over the related nodes.

    Filter keys arrive already split into field name and operator suffix;
    the ghost parameter `w` of the inner functions is the filter being
    compiled and serves termination only. */
module LegacyWhere {
  import opened Wrappers
  import Values
  import opened Schema
  import opened NodeRefs

  datatype WhereKey = AndKey | OrKey | FieldKey(fieldName: string, operator: Option<string>)

  datatype WhereInput = WhereInput(entries: seq<WhereEntry>)

  datatype WhereEntry = WhereEntry(key: WhereKey, value: WhereValue)

  /** A literal other than `null`, which has its own constructor below. */
  type ScalarJson = j: Values.Json | !j.JNull? witness Values.JBool(false)

  /** The value under a key: `null`, a scalar, a nested filter object or
      a list of filter objects. */
  datatype WhereValue =
    | NullValue
    | Scalar(json: ScalarJson)
    | Nested(input: WhereInput)
    | NestedList(inputs: seq<WhereInput>)

  /** A fresh query parameter holding a value (its name is chosen at
      render time). */
  datatype Param = Param(value: WhereValue)

  /** The comparison clauses of the legacy builder. */
  datatype Comparator = Lt | Lte | Gt | Gte | EndsWith | StartsWith | Matches | Contains | In

  /** The clause a property is tested with: plain equality to a parameter,
      or a comparator applied to a parameter. */
  datatype PropertyClause = Equals(param: Param) | Compare(comparator: Comparator, param: Param)

  datatype Quantifier = All | NoneMatch | Single | Any

  /** A relationship with print options for its source, target and
      relationship variable. */
  datatype MatchPattern = MatchPattern(
    relationship: RelationshipRef,
    source: ElementOptions,
    target: ElementOptions,
    rel: ElementOptions)

  /** Where items of the legacy builder. */
  datatype Where =
    | Property(element: NodeRef, dbField: string, clause: PropertyClause)
    | Not(operand: Where)
    | And(operands: seq<Where>)
    | Or(operands: seq<Where>)
    | Exists(pattern: MatchPattern)
    | ListPredicate(quantifier: Quantifier, pattern: MatchPattern, variable: NodeRef, subqueryWhere: seq<Where>)

  datatype WhereError =
    | InvalidOperator(operator: string)
    | RelationshipTargetNotNode
    | LogicalValueNotList
    | RelationValueNotObject

  function Message(e: WhereError): string {
    match e
    case InvalidOperator(op) => "Invalid operator " + op
    case RelationshipTargetNotNode => "Relationship filters must reference nodes"
    case LogicalValueNotList => "value is not iterable"
    case RelationValueNotObject => "value is not a filter object"
  }

  /** What the compiler reads besides the filter: the context's node list
      and the field-to-database-property mapping. */
  datatype Env = Env(context: Context, toDb: (NodeDesc, string) -> string)

  // ---------------------------------------------------------------------
  // Operator suffixes of primitive fields

  /** The suffix that selects a comparator. */
  function ComparatorName(c: Comparator): string {
    match c
    case Lt => "LT"
    case Lte => "LTE"
    case Gt => "GT"
    case Gte => "GTE"
    case EndsWith => "ENDS_WITH"
    case StartsWith => "STARTS_WITH"
    case Matches => "MATCHES"
    case Contains => "CONTAINS"
    case In => "IN"
  }

  /** Comparators that have a `NOT_` form. */
  predicate Negatable(c: Comparator) {
    c == EndsWith || c == StartsWith || c == Contains || c == In
  }

  /** `x` tests the property `dbField` of `element` against a parameter
      holding `value`. */
  predicate TestsProperty(x: Where, element: NodeRef, dbField: string, value: WhereValue) {
    x.Property? && x.element == element && x.dbField == dbField && x.clause.param == Param(value)
  }

  /** `createPrimitiveProperty`: the where item for a primitive field. An
      absent or empty operator means equality. */
  function CreatePrimitiveProperty(target: NodeRef, operator: Option<string>, dbFieldName: string, value: WhereValue)
    : (r: Result<Where, WhereError>)
    ensures operator.None? || operator.value == "" ==> r == Ok(Property(target, dbFieldName, Equals(Param(value))))
    ensures r.Err? ==> operator.Some? && r.error == InvalidOperator(operator.value)
    ensures r.Ok? ==>
      || TestsProperty(r.value, target, dbFieldName, value)
      || (r.value.Not? && TestsProperty(r.value.operand, target, dbFieldName, value))
  {
    var param := Param(value);
    var equality := Property(target, dbFieldName, Equals(param));
    if operator.None? || operator.value == "" then Ok(equality)
    else
      var op := operator.value;
      if op == "LT" then Ok(Property(target, dbFieldName, Compare(Lt, param)))
      else if op == "LTE" then Ok(Property(target, dbFieldName, Compare(Lte, param)))
      else if op == "GT" then Ok(Property(target, dbFieldName, Compare(Gt, param)))
      else if op == "GTE" then Ok(Property(target, dbFieldName, Compare(Gte, param)))
      else if op == "NOT" then Ok(Not(equality))
      else if op == "ENDS_WITH" then Ok(Property(target, dbFieldName, Compare(EndsWith, param)))
      else if op == "NOT_ENDS_WITH" then Ok(Not(Property(target, dbFieldName, Compare(EndsWith, param))))
      else if op == "STARTS_WITH" then Ok(Property(target, dbFieldName, Compare(StartsWith, param)))
      else if op == "NOT_STARTS_WITH" then Ok(Not(Property(target, dbFieldName, Compare(StartsWith, param))))
      else if op == "MATCHES" then Ok(Property(target, dbFieldName, Compare(Matches, param)))
      else if op == "CONTAINS" then Ok(Property(target, dbFieldName, Compare(Contains, param)))
      else if op == "NOT_CONTAINS" then Ok(Not(Property(target, dbFieldName, Compare(Contains, param))))
      else if op == "IN" then Ok(Property(target, dbFieldName, Compare(In, param)))
      else if op == "NOT_IN" then Ok(Not(Property(target, dbFieldName, Compare(In, param))))
      else Err(InvalidOperator(op))
  }

  // ---------------------------------------------------------------------
  // Relation fields

  /** Whether a relation filter's suffix is a negated one: it must be
      present and begin with the three letters of `NOT`. */
  function IsNot(operator: Option<string>): (b: bool)
    ensures b <==> operator.Some? && |operator.value| >= 3 && operator.value[..3] == "NOT"
  {
    operator.Some? && Values.StartsWith(operator.value, "NOT")
  }

  /** The list predicate a relation filter's suffix selects; `SOME`, an
      absent suffix and every unknown suffix select `any`. */
  function QuantifierFor(operator: Option<string>): (q: Quantifier)
    ensures q == All <==> operator == Some("ALL")
    ensures q == NoneMatch <==> operator == Some("NOT") || operator == Some("NONE")
    ensures q == Single <==> operator == Some("SINGLE")
    ensures q == Any <==> !(operator in {Some("ALL"), Some("NOT"), Some("NONE"), Some("SINGLE")})
  {
    if operator == Some("ALL") then All
    else if operator == Some("NOT") || operator == Some("NONE") then NoneMatch
    else if operator == Some("SINGLE") then Single
    else Any
  }

  /** The relationship between the filtered node and the related node,
      oriented by the relation field's direction. */
  function RelationshipOf(rf: RelationField, child: NodeRef, parent: NodeRef): (r: RelationshipRef)
    ensures rf.direction == IN ==> r.source == child && r.target == parent
    ensures rf.direction == OUT ==> r.source == parent && r.target == child
    ensures child != parent ==> (r.source == child <==> rf.direction == IN)
    ensures r.relType == Some(rf.relType)
  {
    RelationshipRef(
      if rf.direction == IN then child else parent,
      if rf.direction == IN then parent else child,
      Some(rf.relType))
  }

  /** The related node a relation filter introduces (`new Node({labels})`):
      a new object labelled with the related type's labels. Its identity is
      one more than the filtered node's, so it is never the filtered node. */
  function ChildNode(refNode: NodeDesc, parent: NodeRef): (c: NodeRef)
    ensures c != parent
    ensures c.labels == refNode.labels && c.prefix == NodePrefix && c.id.None?
  {
    NewNodeRef(Some(refNode.labels), parent.ref + 1)
  }

  /** The options of the side of a pattern that holds the related node. */
  function RelatedSide(p: MatchPattern, rf: RelationField): ElementOptions {
    if rf.direction == IN then p.source else p.target
  }

  /** The options of the side of a pattern that holds the filtered node. */
  function FilteredSide(p: MatchPattern, rf: RelationField): ElementOptions {
    if rf.direction == IN then p.target else p.source
  }

  const NoVariable: ElementOptions := ElementOptions(Some(false), None)
  const WithVariable: ElementOptions := ElementOptions(Some(true), None)
  const NoLabels: ElementOptions := ElementOptions(None, Some(false))

  /** The pattern of the existence test: no variable on the related node
      and the relationship, no labels on the filtered node. */
  function ExistencePattern(rf: RelationField, child: NodeRef, parent: NodeRef): (p: MatchPattern)
    ensures p.relationship == RelationshipOf(rf, child, parent)
    ensures RelatedSide(p, rf).variable == Some(false)
    ensures FilteredSide(p, rf).labels == Some(false)
    ensures p.rel.variable == Some(false)
    // left at their defaults: the filtered node's variable anchors the
    // pattern, the related node keeps its labels, the relationship its type
    ensures FilteredSide(p, rf).variable.None? && RelatedSide(p, rf).labels.None? && p.rel.labels.None?
  {
    MatchPattern(
      RelationshipOf(rf, child, parent),
      if rf.direction == IN then NoVariable else NoLabels,
      if rf.direction == IN then NoLabels else NoVariable,
      NoVariable)
  }

  /** The pattern of the list predicate: the related node keeps its
      variable so the nested filter can refer to it. */
  function QuantifiedPattern(rf: RelationField, child: NodeRef, parent: NodeRef): (p: MatchPattern)
    ensures p.relationship == RelationshipOf(rf, child, parent)
    ensures RelatedSide(p, rf).variable == Some(true)
    ensures FilteredSide(p, rf).labels == Some(false)
    ensures p.rel.variable == Some(false)
    // left at their defaults: the filtered node's variable anchors the
    // pattern, the related node keeps its labels, the relationship its type
    ensures FilteredSide(p, rf).variable.None? && RelatedSide(p, rf).labels.None? && p.rel.labels.None?
  {
    MatchPattern(
      RelationshipOf(rf, child, parent),
      if rf.direction == IN then WithVariable else NoLabels,
      if rf.direction == IN then NoLabels else WithVariable,
      NoVariable)
  }

  // ---------------------------------------------------------------------
  // The compiler

  predicate IsLeaf(e: WhereEntry) {
    e.key.FieldKey?
  }

  /** The non-`AND`/`OR` entries, in order. */
  function Leaves(es: seq<WhereEntry>): (r: seq<WhereEntry>)
    ensures forall i :: 0 <= i < |r| ==> r[i] in es && IsLeaf(r[i])
    ensures forall i :: 0 <= i < |es| && IsLeaf(es[i]) ==> es[i] in r
    ensures |r| <= |es|
  {
    if |es| == 0 then []
    else (if IsLeaf(es[0]) then [es[0]] else []) + Leaves(es[1..])
  }

  /** The `AND`/`OR` entries, in order. */
  function LogicalEntries(es: seq<WhereEntry>): (r: seq<WhereEntry>)
    ensures forall i :: 0 <= i < |r| ==> r[i] in es && !IsLeaf(r[i])
    ensures forall i :: 0 <= i < |es| && !IsLeaf(es[i]) ==> es[i] in r
    ensures |r| <= |es|
  {
    if |es| == 0 then []
    else (if IsLeaf(es[0]) then [] else [es[0]]) + LogicalEntries(es[1..])
  }

  /** `mapAllProperties`: the items of the leaf entries in encounter
      order, followed by exactly one combined item per `AND`/`OR` entry. */
  function MapAllProperties(env: Env, node: NodeDesc, target: NodeRef, w: WhereInput)
    : (r: Result<seq<Where>, WhereError>)
    ensures r.Ok? ==>
      var leaves := Leaves(w.entries);
      var logicals := LogicalEntries(w.entries);
      && |r.value| == |leaves| + |logicals|
      && (forall i :: 0 <= i < |leaves| ==> MapProperty(env, node, target, leaves[i], w) == Ok(r.value[i]))
      && (forall j :: 0 <= j < |logicals| ==>
            && MapLogical(env, node, target, logicals[j], w) == Ok(r.value[|leaves| + j])
            && (logicals[j].key.AndKey? <==> r.value[|leaves| + j].And?)
            && (logicals[j].key.OrKey? <==> r.value[|leaves| + j].Or?))
    ensures r.Err? ==>
      || (exists i :: 0 <= i < |Leaves(w.entries)| && MapProperty(env, node, target, Leaves(w.entries)[i], w) == Err(r.error))
      || (exists j :: 0 <= j < |LogicalEntries(w.entries)| && MapLogical(env, node, target, LogicalEntries(w.entries)[j], w) == Err(r.error))
    // the leaf keys run first: their (first) error is the error
    ensures MapProperties(env, node, target, Leaves(w.entries), w).Err? ==>
              r == Err(MapProperties(env, node, target, Leaves(w.entries), w).error)
    // only when every leaf compiles do the AND/OR keys decide it
    ensures MapProperties(env, node, target, Leaves(w.entries), w).Ok? ==>
              (r.Err? <==> MapLogicals(env, node, target, LogicalEntries(w.entries), w).Err?)
              && (r.Err? ==> r.error == MapLogicals(env, node, target, LogicalEntries(w.entries), w).error)
    decreases w, 4
  {
    var mapped := MapProperties(env, node, target, Leaves(w.entries), w);
    if mapped.Err? then
      assert exists i :: (0 <= i < |Leaves(w.entries)|
        && MapProperty(env, node, target, Leaves(w.entries)[i], w) == Err(mapped.error));
      Err(mapped.error)
    else
      var combined := MapLogicals(env, node, target, LogicalEntries(w.entries), w);
      if combined.Err? then
        assert exists j :: (0 <= j < |LogicalEntries(w.entries)|
          && MapLogical(env, node, target, LogicalEntries(w.entries)[j], w) == Err(combined.error));
        Err(combined.error)
      else Ok(mapped.value + combined.value)
  }

  /** `mapProperties`: compiles each leaf entry in order; the first error
      stops the compilation. */
  function MapProperties(env: Env, node: NodeDesc, target: NodeRef, leaves: seq<WhereEntry>, ghost w: WhereInput)
    : (r: Result<seq<Where>, WhereError>)
    requires forall i :: 0 <= i < |leaves| ==> leaves[i] in w.entries && IsLeaf(leaves[i])
    ensures r.Ok? <==> forall i :: 0 <= i < |leaves| ==> MapProperty(env, node, target, leaves[i], w).Ok?
    ensures r.Ok? ==> |r.value| == |leaves|
    ensures r.Ok? ==> forall i :: 0 <= i < |leaves| ==> MapProperty(env, node, target, leaves[i], w) == Ok(r.value[i])
    ensures r.Err? ==> exists i :: 0 <= i < |leaves|
                        && MapProperty(env, node, target, leaves[i], w) == Err(r.error)
                        && forall j :: 0 <= j < i ==> MapProperty(env, node, target, leaves[j], w).Ok?
    decreases w, 3, |leaves|
  {
    if |leaves| == 0 then Ok([])
    else
      var head :- MapProperty(env, node, target, leaves[0], w);
      var tail :- MapProperties(env, node, target, leaves[1..], w);
      Ok([head] + tail)
  }

  /** The where item of one leaf entry: relation fields are looked up
      first, everything else is a primitive property. */
  function MapProperty(env: Env, node: NodeDesc, target: NodeRef, e: WhereEntry, ghost w: WhereInput)
    : (r: Result<Where, WhereError>)
    requires e in w.entries && IsLeaf(e)
    // a field that is not a relation tests its database property on the target
    ensures FindRelationField(node.relationFields, e.key.fieldName).None? ==>
      var db := env.toDb(node, e.key.fieldName);
      && (r.Ok? ==> TestsProperty(r.value, target, db, e.value)
                    || (r.value.Not? && TestsProperty(r.value.operand, target, db, e.value)))
      && (r.Err? ==> e.key.operator.Some? && r.error == InvalidOperator(e.key.operator.value))
    // a relation field never tests a property; it fails only through its target type or value
    ensures FindRelationField(node.relationFields, e.key.fieldName).Some? ==>
      && (r.Ok? ==> !r.value.Property?)
      && (r.Err? ==> !r.error.InvalidOperator? || e.value.Nested?)
    decreases w, 2
  {
    var fieldName := e.key.fieldName;
    var operator := e.key.operator;
    var relationField := FindRelationField(node.relationFields, fieldName);
    if relationField.Some? then
      CreateRelationProperty(env, relationField.value, target, operator, e.value, IsNot(operator), w)
    else
      CreatePrimitiveProperty(target, operator, env.toDb(node, fieldName), e.value)
  }

  /** `createRelationProperty`. */
  function CreateRelationProperty(
    env: Env, rf: RelationField, parent: NodeRef, operator: Option<string>,
    value: WhereValue, isNot: bool, ghost w: WhereInput)
    : (r: Result<Where, WhereError>)
    requires value < w
    ensures FindNode(env.context.nodes, rf.typeName).None? ==> r == Err(RelationshipTargetNotNode)
    // a null value on a node type never fails
    ensures FindNode(env.context.nodes, rf.typeName).Some? && value.NullValue? ==> r.Ok?
    // a nested filter fails exactly when its compilation fails, with its error
    ensures FindNode(env.context.nodes, rf.typeName).Some? && value.Nested? ==>
      var n := FindNode(env.context.nodes, rf.typeName).value;
      var inner := MapAllProperties(env, n, ChildNode(n, parent), value.input);
      && (r.Ok? <==> inner.Ok?)
      && (r.Err? ==> r.error == inner.error)
    ensures r.Ok? ==>
      var refNode := FindNode(env.context.nodes, rf.typeName).value;
      var child := ChildNode(refNode, parent);
      var existence := Exists(ExistencePattern(rf, child, parent));
      && (value.NullValue? && !isNot ==> r.value == Not(existence))
      && (value.NullValue? && isNot ==> r.value == existence)
      && (!value.NullValue? ==>
            && value.Nested?
            && MapAllProperties(env, refNode, child, value.input).Ok?
            && r.value == And([existence, ListPredicate(
                 QuantifierFor(operator), QuantifiedPattern(rf, child, parent), child,
                 MapAllProperties(env, refNode, child, value.input).value)]))
    decreases w, 1
  {
    var refNode := FindNode(env.context.nodes, rf.typeName);
    if refNode.None? then Err(RelationshipTargetNotNode)
    else
      var child := ChildNode(refNode.value, parent);
      var existence := Exists(ExistencePattern(rf, child, parent));
      if value.NullValue? then
        if !isNot then Ok(Not(existence)) else Ok(existence)
      else if !value.Nested? then Err(RelationValueNotObject)
      else
        var listPredicate := QuantifierFor(operator);
        var mapped :- MapAllProperties(env, refNode.value, child, value.input);
        Ok(And([existence, ListPredicate(listPredicate, QuantifiedPattern(rf, child, parent), child, mapped)]))
  }

  /** One combined item per `AND`/`OR` entry, in order. */
  function MapLogicals(env: Env, node: NodeDesc, target: NodeRef, logicals: seq<WhereEntry>, ghost w: WhereInput)
    : (r: Result<seq<Where>, WhereError>)
    requires forall i :: 0 <= i < |logicals| ==> logicals[i] in w.entries && !IsLeaf(logicals[i])
    ensures r.Ok? <==> forall i :: 0 <= i < |logicals| ==> MapLogical(env, node, target, logicals[i], w).Ok?
    ensures r.Ok? ==> |r.value| == |logicals|
    ensures r.Ok? ==> forall i :: 0 <= i < |logicals| ==> MapLogical(env, node, target, logicals[i], w) == Ok(r.value[i])
    ensures r.Err? ==> exists i :: 0 <= i < |logicals|
                        && MapLogical(env, node, target, logicals[i], w) == Err(r.error)
                        && forall j :: 0 <= j < i ==> MapLogical(env, node, target, logicals[j], w).Ok?
    decreases w, 3, |logicals|
  {
    if |logicals| == 0 then Ok([])
    else
      var head :- MapLogical(env, node, target, logicals[0], w);
      var tail :- MapLogicals(env, node, target, logicals[1..], w);
      Ok([head] + tail)
  }

  /** An `AND`/`OR` entry: the items of all its filters, flattened into one
      list and wrapped once. */
  function MapLogical(env: Env, node: NodeDesc, target: NodeRef, e: WhereEntry, ghost w: WhereInput)
    : (r: Result<Where, WhereError>)
    requires e in w.entries && !IsLeaf(e)
    ensures r.Ok? ==> e.value.NestedList?
    ensures r.Ok? && e.key.AndKey? ==> r.value.And?
    ensures r.Ok? && e.key.OrKey? ==> r.value.Or?
    decreases w, 2
  {
    if !e.value.NestedList? then Err(LogicalValueNotList)
    else
      assert e.value < w;
      var nested :- MapNested(env, node, target, e.value.inputs, w);
      if e.key.OrKey? then Ok(Or(nested)) else Ok(And(nested))
  }

  /** The concatenated items of a list of filters, all against the same
      target. */
  function MapNested(env: Env, node: NodeDesc, target: NodeRef, inputs: seq<WhereInput>, ghost w: WhereInput)
    : (r: Result<seq<Where>, WhereError>)
    requires forall i :: 0 <= i < |inputs| ==> inputs[i] < w
    ensures r.Ok? <==> forall i :: 0 <= i < |inputs| ==> MapAllProperties(env, node, target, inputs[i]).Ok?
    ensures r.Err? ==> exists i :: 0 <= i < |inputs|
                        && MapAllProperties(env, node, target, inputs[i]) == Err(r.error)
                        && forall j :: 0 <= j < i ==> MapAllProperties(env, node, target, inputs[j]).Ok?
    decreases w, 1, |inputs|
  {
    if |inputs| == 0 then Ok([])
    else
      var first :- MapAllProperties(env, node, target, inputs[0]);
      var rest :- MapNested(env, node, target, inputs[1..], w);
      Ok(first + rest)
  }

  /** `addWhereToStatement`: the items the match statement's where clause
      receives, one per key of the filter. */
  function AddWhereToStatement(env: Env, node: NodeDesc, target: NodeRef, whereInput: WhereInput)
    : (r: Result<seq<Where>, WhereError>)
    ensures r.Ok? ==> |r.value| == |whereInput.entries|
  {
    EntriesPartition(whereInput.entries);
    MapAllProperties(env, node, target, whereInput)
  }

  /** Every entry of a filter is either a leaf or an `AND`/`OR` entry. */
  lemma {:induction false} EntriesPartition(es: seq<WhereEntry>)
    ensures |Leaves(es)| + |LogicalEntries(es)| == |es|
  {
    if |es| > 0 {
      EntriesPartition(es[1..]);
    }
  }
}
