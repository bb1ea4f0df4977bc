# Where-filter compilation of the Neo4j GraphQL library, in Dafny

This project models how the Neo4j GraphQL library turns the `where` argument
of a GraphQL query into Cypher predicates, and proves properties of that
model. It covers:

- **The legacy where compiler** (`addWhereToStatement`, `mapAllProperties`,
  `mapProperties`, `createPrimitiveProperty`, `createRelationProperty`).
  - Leaf keys are compiled first, in the order they appear. Each `AND`/`OR`
    key then adds exactly one combined item, whose operands are the items of
    its nested filters flattened into one list.
  - A primitive key's operator suffix selects a comparison from a fixed
    table. A suffix outside the table raises `Invalid operator <suffix>`.
  - A relation key becomes an existence test over the relationship pattern.
    With a nested filter, that test is conjoined with a quantified list
    predicate (`all`, `none`, `single`, `any`) over the related nodes.
- **The current where compiler** (`createWherePredicate`,
  `createNestedPredicate`).
  - Property keys are handed to the property-where collaborator.
  - Logical keys recurse over their filters with the same element and target
    variable.
  - Each level combines its present predicates with one `and`, or with the
    key's own operator. Pre-computed subqueries are threaded alongside, with
    different keep rules at the top level and inside a logical operator.
- **The relationship pattern builder** (`buildRelationshipStatement`,
  `getRelationshipSubStatement`, `serializeRelationParameters`). It renders
  `<-[var:TYPE params]-`, `-[...]->` or `-[...]-`.
- **`getRelationshipMeta`**. It reads the `@relationship` directive of a
  field, falling back to the interface field. It validates `direction`,
  `type`, `properties` and `allowMultiple` in the source's order, with its
  exact error messages.
- **The comparison operations of the second cypher builder** and its
  **node references** (`NodeRef`, `NamedNode`, `relatedTo`, `pattern`).

Modules:

- `Wrappers` and `Values` hold the shared types.
- `Seqs` models JavaScript's `Array.prototype.find` and `findIndex` as
  first-match searches.
- `Schema` holds node and relation-field metadata and their lookups.
- `NodeRefs`, `Comparison`, `RelationshipDirective`, `RelationshipStatement`,
  `LegacyWhere` and `WherePredicate` are one module per core file.
- `LegacyWhereProperties` and `WherePredicateProperties` hold the lemmas
  relating several calls.

Thrown exceptions are modelled as the `Err` side of a `Result`. Collaborators
whose bodies are outside the core become function-typed parameters:
`mapToDbProperty`, the property-where builder, `serializeParameters`,
`padLeft`, `buildNodeStatement` and `joinStatements`.

## Model

| member | source | states |
|---|---|---|
| Seqs.FindIndex | packages/graphql/src/translate/where/add-where-to-statement.ts:138 | `find` stops at the first element satisfying the test: the element at the index satisfies it, every earlier one does not, and nothing is found iff no element satisfies it |
| Seqs.Find | packages/graphql/src/translate/where/add-where-to-statement.ts:234 | something is found iff some element satisfies the test, and what is found is an element that satisfies it |
| Schema.FindNode | packages/graphql/src/translate/where/add-where-to-statement.ts:234-235 | the referenced node is found exactly when some node of the context has the relation's type name, and it carries that name |
| Schema.FindRelationField | packages/graphql/src/translate/where/add-where-to-statement.ts:138-139 | a key is a relation filter exactly when the node has a relation field of that name, and the found field has that name |
| LegacyWhere.AddWhereToStatement | packages/graphql/src/translate/where/add-where-to-statement.ts:34-57 | when compilation succeeds, the match statement receives exactly one where item per key of the filter |
| LegacyWhere.MapAllProperties | packages/graphql/src/translate/where/add-where-to-statement.ts:59-113 | leaf items come first, one per leaf key in key order; then one item per `AND`/`OR` key, an `And` for `AND` and an `Or` for `OR`; when some leaf key fails its error is the result, otherwise the error of the `AND`/`OR` keys is |
| LegacyWhere.Leaves | packages/graphql/src/translate/where/add-where-to-statement.ts:73 | the leaf keys are exactly the keys other than `AND`/`OR`: each one selected is a key of the filter, and every such key is selected |
| LegacyWhere.LogicalEntries | packages/graphql/src/translate/where/add-where-to-statement.ts:84-85 | the `AND`/`OR` keys are exactly those of the filter: each one selected is such a key of the filter, and every such key is selected |
| LegacyWhere.MapProperties | packages/graphql/src/translate/where/add-where-to-statement.ts:115-157 | the leaf keys are compiled in order; success iff every key compiles; the error returned is that of the first failing key |
| LegacyWhere.MapProperty | packages/graphql/src/translate/where/add-where-to-statement.ts:126-156 | a key without a relation field compiles to a test of its database property on the target, possibly under one negation, and can fail only with `Invalid operator` naming its suffix; a relation key never compiles to a bare property test |
| LegacyWhere.IsNot | packages/graphql/src/translate/where/add-where-to-statement.ts:131 | a suffix counts as negated exactly when it is present and begins with `NOT` |
| LegacyWhere.CreatePrimitiveProperty | packages/graphql/src/translate/where/add-where-to-statement.ts:159-217 | an absent or empty suffix gives equality with a parameter holding the value; any error is `InvalidOperator` naming the suffix; every success tests the property, possibly under one negation, against a parameter holding the value |
| LegacyWhere.RelationshipOf | packages/graphql/src/translate/where/add-where-to-statement.ts:239-243 | for an IN relation the related node is the source and the filtered node the target; for OUT the filtered node is the source and the related node the target; when the two nodes differ, the related node is the source iff the relation is IN; the relationship carries the field's type |
| LegacyWhere.ChildNode | packages/graphql/src/translate/where/add-where-to-statement.ts:237 | the related node is a fresh reference, distinct from the filtered node, carrying the labels of the referenced node and no fixed id |
| LegacyWhere.ExistencePattern | packages/graphql/src/translate/where/add-where-to-statement.ts:245-249 | the existence pattern is drawn over the relationship; it hides the related node's variable, the filtered node's labels and the relationship variable, and leaves the filtered node's variable, the related node's labels and the relationship's type shown |
| LegacyWhere.QuantifiedPattern | packages/graphql/src/translate/where/add-where-to-statement.ts:252-256 | the quantified pattern is drawn over the same relationship but shows the related node's variable; it hides the filtered node's labels and the relationship variable, and leaves the filtered node's variable, the related node's labels and the relationship's type shown |
| LegacyWhere.QuantifierFor | packages/graphql/src/translate/where/add-where-to-statement.ts:269-284 | `ALL` selects all; `NOT` and `NONE` select none; `SINGLE` selects single; every other suffix, absent included, selects any |
| LegacyWhere.CreateRelationProperty | packages/graphql/src/translate/where/add-where-to-statement.ts:219-296 | a type that is not a node fails with the "must reference nodes" error; on a node type `null` never fails, giving the negated existence test, or the existence test under a NOT suffix; a nested filter fails exactly when compiling it against the related node fails, with that error, and otherwise gives existence AND a list predicate whose nested where is that compilation |
| LegacyWhere.MapLogicals | packages/graphql/src/translate/where/add-where-to-statement.ts:84-102 | the `AND`/`OR` keys are compiled in order, one item each; success iff each compiles; the error is that of the first failing one |
| LegacyWhere.MapLogical | packages/graphql/src/translate/where/add-where-to-statement.ts:85-100 | an `AND`/`OR` key compiles only when its value is a list of filters; `AND` yields an `And` item and `OR` an `Or` item (operands: `LegacyWhereProperties.LogicalKeyFlattens`) |
| LegacyWhere.MapNested | packages/graphql/src/translate/where/add-where-to-statement.ts:86-91 | the nested filters compile iff each of them does; otherwise the error is that of the first failing filter |
| LegacyWhere.EntriesPartition | packages/graphql/src/translate/where/add-where-to-statement.ts:73-85 | every key is either a leaf or an `AND`/`OR` key, so the two groups together account for every key |
| LegacyWhereProperties.PositiveSuffix | packages/graphql/src/translate/where/add-where-to-statement.ts:172-214 | each comparator's suffix (`LT` … `IN`) selects exactly that comparator on the property, against a parameter holding the value |
| LegacyWhereProperties.NegatedSuffix | packages/graphql/src/translate/where/add-where-to-statement.ts:191-210 | `NOT_` before `ENDS_WITH`, `STARTS_WITH`, `CONTAINS` or `IN` yields the negation of what the positive suffix yields |
| LegacyWhereProperties.NotSuffixNegatesEquality | packages/graphql/src/translate/where/add-where-to-statement.ts:186-187 | the bare `NOT` suffix yields the negation of the equality an absent suffix yields |
| LegacyWhereProperties.InvalidOperatorIffOutsideTable | packages/graphql/src/translate/where/add-where-to-statement.ts:171-216 | a suffix is rejected iff it is outside the accepted table (empty, `NOT`, the nine comparators, the four `NOT_` forms), and the error names the suffix |
| LegacyWhereProperties.IsNotAgreesWithTable | packages/graphql/src/translate/where/add-where-to-statement.ts:131 | the negation flag passed to relation filters is off for every positive suffix and on for `NOT` and every `NOT_` form |
| LegacyWhereProperties.UnknownSuffixFails | packages/graphql/src/translate/where/add-where-to-statement.ts:150-155 | a filter with one non-relation key whose suffix is outside the table fails with `Invalid operator <suffix>` |
| LegacyWhereProperties.NullRelationFilters | packages/graphql/src/translate/where/add-where-to-statement.ts:258-264 | `{rel: null}` compiles to the negated existence test and `{rel_NOT: null}` to the existence test itself |
| LegacyWhereProperties.RelationFilterShape | packages/graphql/src/translate/where/add-where-to-statement.ts:245-296 | `{rel_OP: f}` compiles to the existence test AND a list predicate over the related node, whose nested where is `f` compiled against that node; `ALL` selects all, `NOT`/`NONE` none, `SINGLE` single, anything else any; an error compiling `f` is the error of the whole filter |
| LegacyWhereProperties.RelationToNonNodeFails | packages/graphql/src/translate/where/add-where-to-statement.ts:234-235 | a relation key whose type is not a node fails, whatever the value |
| LegacyWhereProperties.NestedIsFlattening | packages/graphql/src/translate/where/add-where-to-statement.ts:87-91 | the filters of an `AND`/`OR` list contribute all their items, in order, to one flat list |
| LegacyWhereProperties.LogicalKeyFlattens | packages/graphql/src/translate/where/add-where-to-statement.ts:84-100 | for any list of filters, `{AND: fs}` / `{OR: fs}` is one `And` / `Or` of all the items of the filters flattened in order, when each compiles; otherwise the error of the first failing filter |
| LegacyWhereProperties.FirstFailingKeyDecides | packages/graphql/src/translate/where/add-where-to-statement.ts:72-102 | the error of a filter is that of its first failing leaf key; only when every leaf key compiles is it that of its first failing `AND`/`OR` key |
| LegacyWhereProperties.LeavesAppend | packages/graphql/src/translate/where/add-where-to-statement.ts:73 | the leaf keys of a concatenation are those of each part in turn, so the selection keeps encounter order |
| LegacyWhereProperties.LogicalEntriesAppend | packages/graphql/src/translate/where/add-where-to-statement.ts:84-85 | the `AND`/`OR` keys of a concatenation are those of each part in turn, so the selection keeps encounter order |
| LegacyWhereProperties.OneEntrySelection | packages/graphql/src/translate/where/add-where-to-statement.ts:73-85 | a single key is selected as a leaf key exactly when it is not `AND`/`OR`, and as a logical key otherwise |
| LegacyWhereProperties.LeafOnlyFilter | packages/graphql/src/translate/where/add-where-to-statement.ts:73-79 | a filter without `AND`/`OR` keys compiles iff each of its keys does, and then to one item per key, in key order |
| WherePredicate.Combine | packages/graphql/src/translate/where/create-where-predicate.ts:77-81 | combining gives no predicate exactly when there are no operands, otherwise one logical node with the given operator and all operands |
| WherePredicate.AsArray | packages/graphql/src/translate/where/create-where-predicate.ts:52 | a single filter becomes a one-element list holding it; a list keeps its length and its elements |
| WherePredicate.Step | packages/graphql/src/translate/where/create-where-predicate.ts:55-75 | one loop iteration appends a present predicate and leaves the earlier ones intact; it appends a result's non-empty subqueries when kept, and at the top level a key without a predicate leaves the state untouched |
| WherePredicate.Kept | packages/graphql/src/translate/where/create-where-predicate.ts:55-75 | only non-empty subqueries are kept; inside a logical operator every non-empty one is, at the top level only those that come with a predicate |
| WherePredicate.Accumulate | packages/graphql/src/translate/where/create-where-predicate.ts:45-76 | a loop collects at most one predicate per result |
| WherePredicate.CreateWherePredicate | packages/graphql/src/translate/where/create-where-predicate.ts:29-82 | a filter's predicate, when there is one, is an AND with between one and as many operands as the filter has keys |
| WherePredicate.CreateNestedPredicate | packages/graphql/src/translate/where/create-where-predicate.ts:84-118 | a logical key's predicate, when there is one, uses the key's operator, with between one and as many operands as the key has filters |
| WherePredicate.FieldReturns | packages/graphql/src/translate/where/create-where-predicate.ts:45-76 | one result per key, in key order, each the result of compiling that key |
| WherePredicate.FieldReturn | packages/graphql/src/translate/where/create-where-predicate.ts:46-69 | a property key is handed to the property-where builder with the same element and target; a logical key's predicate, when present, uses the key's operator with at most one operand per filter |
| WherePredicate.NestedReturns | packages/graphql/src/translate/where/create-where-predicate.ts:102-109 | one result per filter of a logical value, each that filter compiled against the same element and target |
| WherePredicateProperties.AccumulateMeaning | packages/graphql/src/translate/where/create-where-predicate.ts:45-76 | the loop gathers exactly the present predicates and the kept subqueries, in order |
| WherePredicateProperties.AccumulateEmpty | packages/graphql/src/translate/where/create-where-predicate.ts:45-76 | a loop collects no predicate exactly when every result lacks one |
| WherePredicateProperties.NoKeyPredicateIffNone | packages/graphql/src/translate/where/create-where-predicate.ts:45-81 | a filter yields no predicate exactly when none of its keys does |
| WherePredicateProperties.NoFilterPredicateIffNone | packages/graphql/src/translate/where/create-where-predicate.ts:102-117 | a logical key yields no predicate exactly when none of its filters does |
| WherePredicateProperties.TopLevelIsImplicitAnd | packages/graphql/src/translate/where/create-where-predicate.ts:29-82 | a filter compiles to one AND of the present predicates of its keys, in key order; a key's subqueries are kept only with its predicate |
| WherePredicateProperties.LogicalKeyCombinesWithItsOperator | packages/graphql/src/translate/where/create-where-predicate.ts:84-118 | a logical key compiles each of its filters against the same element and target, combines the present predicates with the key's operator, and keeps every non-empty subquery |
| WherePredicateProperties.CompiledSubqueriesNeedPredicate | packages/graphql/src/translate/where/create-where-predicate.ts:55-59 | a compiled filter without a predicate carries no subqueries |
| WherePredicateProperties.NoPredicateNoSubqueries | packages/graphql/src/translate/where/create-where-predicate.ts:70-75 | at the top level, when no key yields a predicate, no subquery is gathered |
| WherePredicateProperties.AbsentKeyDropped | packages/graphql/src/translate/where/create-where-predicate.ts:70-76 | a key yielding no predicate changes nothing at the top level |
| WherePredicateProperties.SubqueryAsymmetry | packages/graphql/src/translate/where/create-where-predicate.ts:110-114 | subqueries without a predicate are dropped at the top level but kept inside a logical operator |
| WherePredicateProperties.SameElementThroughout | packages/graphql/src/translate/where/create-where-predicate.ts:47-54 | two property-where builders that agree on the element and target give the same result at every depth, so nesting never changes the element or target |
| RelationshipStatement.LeftConnection | packages/graphql/src/translate/cypher-builder/build-relationship-statement.ts:77-79 | the left connector is `<-` exactly for a directed IN relationship, `-` otherwise |
| RelationshipStatement.RightConnection | packages/graphql/src/translate/cypher-builder/build-relationship-statement.ts:80-82 | the right connector is `->` exactly for a directed OUT relationship, `-` otherwise |
| RelationshipStatement.RelationshipLabel | packages/graphql/src/translate/cypher-builder/build-relationship-statement.ts:84 | the label is empty exactly when the type is empty, otherwise `:` followed by the type |
| RelationshipStatement.VarNameOf | packages/graphql/src/translate/cypher-builder/build-relationship-statement.ts:74 | an absent relationship variable renders as the empty name, a given one as itself |
| RelationshipStatement.RelationParameterPrefix | packages/graphql/src/translate/cypher-builder/build-relationship-statement.ts:93-95 | the parameter prefix is the variable name followed by `_relationship` |
| RelationshipStatement.DistinctRelationPrefixes | packages/graphql/src/translate/cypher-builder/build-relationship-statement.ts:93-95 | relationship parameters are serialised under a prefix that determines the relationship variable, so two different variables never share one |
| RelationshipStatement.GetRelationshipSubStatement | packages/graphql/src/translate/cypher-builder/build-relationship-statement.ts:73-91 | the text is left connector, `[`, variable, label, padded parameters, `]`, right connector; the parameters are those serialised under the relationship prefix |
| RelationshipStatement.Directed | packages/graphql/src/translate/cypher-builder/build-relationship-statement.ts:50 | a relationship is undirected only when `directed` is given as false |
| RelationshipStatement.BuildRelationshipStatement | packages/graphql/src/translate/cypher-builder/build-relationship-statement.ts:45-71 | source node, relationship and target node statements are joined, in that order, without a separator |
| RelationshipStatement.ArrowsReadBack | packages/graphql/src/translate/cypher-builder/build-relationship-statement.ts:73-91 | whatever the variable, type and parameters, the rendered text starts with `<` iff directed IN, ends with `>` iff directed OUT, and otherwise starts or ends with `-` |
| RelationshipStatement.UndirectedIgnoresDirection | packages/graphql/src/translate/cypher-builder/build-relationship-statement.ts:77-82 | an undirected relationship renders identically for IN and OUT |
| RelationshipDirective.ParseDirection | packages/graphql/src/schema/get-relationship-meta.ts:47-49 | a direction is accepted exactly when it is `IN` or `OUT`, and reads back to the same text |
| RelationshipDirective.DirectiveOf | packages/graphql/src/schema/get-relationship-meta.ts:33-35 | a field's directive is one of its directives named `relationship`; there is none iff the field has no directive list or none of that name |
| RelationshipDirective.ChosenDirective | packages/graphql/src/schema/get-relationship-meta.ts:33-35 | the field's own `relationship` directive wins; only without one is the interface field's taken, and there is none iff neither has one |
| RelationshipDirective.Arg | packages/graphql/src/schema/get-relationship-meta.ts:40 | a directive's argument under a name is one of its arguments with that name; there is none iff it has no argument list or none of that name |
| RelationshipDirective.GetRelationshipMeta | packages/graphql/src/schema/get-relationship-meta.ts:29-80 | no metadata and no error iff neither field has the directive; the direction errors in order, then the type errors, then properties, then allowMultiple; a directive passing every check always yields metadata, carrying the directive's literals, with each optional field present iff its argument is |
| RelationshipDirective.MetaRoundTrip | packages/graphql/src/schema/get-relationship-meta.ts:22-80 | reading back the directive written for any metadata gives that metadata |
| RelationshipDirective.ToDirectiveArguments | packages/graphql/src/schema/get-relationship-meta.ts:40-67 | each argument of a written directive is found under its own name, and the optional ones exactly when present |
| RelationshipDirective.FieldDirectiveTakesPrecedence | packages/graphql/src/schema/get-relationship-meta.ts:33-35 | when the field has its own directive, the interface field does not affect the result |
| Comparison.OperatorText | packages/graphql/src/translate/cypher-builder-2/operations/comparison.ts:24 | each operator has a non-empty text that reads back to that operator, so no two operators share a text |
| Comparison.Cypher | packages/graphql/src/translate/cypher-builder-2/operations/comparison.ts:38-43 | the text starts with the left operand and a space when there is one, ends with a space and the right operand when there is one, and has exactly the length of the operands, the operator and the spaces |
| Comparison.BinaryOperatorRecoverable | packages/graphql/src/translate/cypher-builder-2/operations/comparison.ts:38-43 | between the rendered operands of a binary comparison sits exactly the operator's text, so the operator can be read back |
| Comparison.NullTestsDistinct | packages/graphql/src/translate/cypher-builder-2/operations/comparison.ts:70-76 | an `IS NULL` test and an `IS NOT NULL` test never render to the same text, whatever their operands |
| Comparison.Eq | packages/graphql/src/translate/cypher-builder-2/operations/comparison.ts:50-52 | `eq(l, r)` is the `=` operation with left operand `l` and right operand `r` |
| Comparison.Gt | packages/graphql/src/translate/cypher-builder-2/operations/comparison.ts:54-56 | `gt(l, r)` is the `>` operation with left operand `l` and right operand `r` |
| Comparison.Gte | packages/graphql/src/translate/cypher-builder-2/operations/comparison.ts:58-60 | `gte(l, r)` is the `>=` operation with left operand `l` and right operand `r` |
| Comparison.Lt | packages/graphql/src/translate/cypher-builder-2/operations/comparison.ts:62-64 | `lt(l, r)` is the `<` operation with left operand `l` and right operand `r` |
| Comparison.Lte | packages/graphql/src/translate/cypher-builder-2/operations/comparison.ts:66-68 | `lte(l, r)` is the `<=` operation with left operand `l` and right operand `r` |
| Comparison.IsNull | packages/graphql/src/translate/cypher-builder-2/operations/comparison.ts:70-72 | `isNull(x)` is the `IS NULL` operation on `x` alone, with no right operand |
| Comparison.IsNotNull | packages/graphql/src/translate/cypher-builder-2/operations/comparison.ts:74-76 | `isNotNull(x)` is the `IS NOT NULL` operation on `x` alone, with no right operand |
| NodeRefs.NewNodeRef | packages/graphql/src/translate/cypher-builder/variables/NodeRef.ts:32-35 | a new node reference has prefix `this`, the given labels or none, no fixed id, and the given identity |
| NodeRefs.NamedNode | packages/graphql/src/translate/cypher-builder/variables/NodeRef.ts:50-55 | a named node is a node reference with the same prefix and labels and the given identity, whose id is the given one |
| NodeRefs.RelatedTo | packages/graphql/src/translate/cypher-builder/variables/NodeRef.ts:37-42 | `a.relatedTo(b)` is an untyped relationship from `a` to `b` |
| NodeRefs.PatternOf | packages/graphql/src/translate/cypher-builder/variables/NodeRef.ts:45-47 | a pattern of a node starts at that node, with the given source options |

## Left out

- Filter keys arrive already split into a field name and an operator suffix.
  The `whereRegEx` split and the aggregate flag are not modelled.
- The coalesce value is looked up but unused in the legacy compiler (the
  source marks it TODO), so it is not modelled.
- Parameter names and fresh variable names are render-time concerns of the
  builders, so a `Param` holds only its value. Variable identity, which the
  builders get from object identity, is an explicit `ref` number on a node
  reference.
- LegacyWhere.ChildNode: the related node's identity is its filtered node's
  plus one. It is distinct from its filtered node, but two related nodes at
  the same depth share an identity, where the source creates distinct
  objects.
- LegacyWhere.MapLogical: the items of each nested filter are not grouped.
  `{OR: [{a, b}, {c}]}` becomes `or(a, b, c)`, as in the source, so an `OR`
  of filters with several keys disjoins the keys one by one.
- `mapToDbProperty`, the property-where builder (`createPropertyWhere` with
  its context and outer relationship data), `serializeParameters`, `padLeft`,
  `buildNodeStatement` and `joinStatements` are outside the core. Each is an
  uninterpreted function parameter.
- `Cypher.and` and `Cypher.or` of the builder library are modelled by
  `WherePredicate.Combine`. It gives nothing for no operands and one logical
  node otherwise; any single-operand simplification inside the library is
  not modelled.
- `isLogicalOperator` and `getCypherLogicalOperator` are folded into the
  input type: a key is either a property key or an `AND`/`OR` key.
- `asArray` is `WherePredicate.AsArray` on a value that is one filter or a
  list of filters.
- LegacyWhere.MapLogical: an `AND`/`OR` value that is not a list fails with
  `LogicalValueNotList`. The source iterates whatever it is given, such as
  the characters of a string; GraphQL input validation rules such values out.
- LegacyWhere.CreateRelationProperty: a relation value that is a scalar
  literal fails with `RelationValueNotObject`. The source would read it as a
  filter object; GraphQL input validation rules such values out.
- LegacyWhere.WhereValue: a filter object is given as `Nested` and a list of
  filter objects as `NestedList`. A JSON object or array given as a
  `Scalar` is a literal value (the list of an `IN` suffix, say); under an
  `AND`/`OR` key or a relation key it is outside the input domain, and the
  model rejects it where the source would read it as filters. `null` has
  only the `NullValue` encoding.
- LegacyWhere.WhereKey: a field key named `AND` or `OR` is a second
  encoding of the logical keys and is outside the input domain. The source
  never splits those two keys, and the model would compile such a field key
  as a property test.
- WherePredicate.Concat: `Cypher.concat` of composite clauses, together with
  their `.empty` test, is modelled as appending lists of clauses.
- LegacyWhere.AddWhereToStatement: returns the items that
  `matchStatement.where(...)` receives, not the mutated match statement.
- The legacy compiler's target element is always a node reference. The
  source's relationship targets are not modelled.
- The subquery rule inside a logical operator (kept even without a
  predicate) is unreachable through `createWherePredicate` alone, because a
  compiled filter never carries subqueries without a predicate. It is stated
  on a single loop step (`SubqueryAsymmetry`).
- Duration, spatial and `{low, high}` integer encodings of values belong to
  the property-where builder and are not modelled.
- The test files and integration issues around the core are not modelled.
