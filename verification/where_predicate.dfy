/** The current where compiler: walks the keys of a `where` filter, turns
    each property key into a predicate through the property-where
    collaborator, recurses into `AND`/`OR` keys against the same element and
    target variable, and combines everything found at one level with an
    implicit AND. Pre-computed subqueries are threaded alongside.

    The property-where collaborator (which itself may call back into this
    compiler) is a function parameter `pw` taking the key, its value, the
    graph element and the target variable; element and variable are opaque
    type parameters. */
module WherePredicate {
  import opened Wrappers
  import opened Values

  datatype LogicalOperator = AND | OR

  /** Predicates of the expression IR: opaque atoms produced by the
      collaborators, and logical combinations. */
  datatype Predicate = Atom(text: string) | Logical(op: LogicalOperator, operands: seq<Predicate>)

  /** The builder's `and(...)`/`or(...)`: nothing when given no operand. */
  function Combine(op: LogicalOperator, ps: seq<Predicate>): (r: Option<Predicate>)
    ensures r.None? <==> |ps| == 0
    ensures r.Some? ==> r.value.Logical? && r.value.op == op && r.value.operands == ps
  {
    if |ps| == 0 then None else Some(Logical(op, ps))
  }

  /** The clauses of a composite clause of subqueries. */
  type Clauses = seq<string>

  /** The builder's `concat(acc, next)`; an absent accumulator counts as no
      clauses. */
  function Concat(acc: Option<Clauses>, next: Clauses): Clauses {
    (if acc.Some? then acc.value else []) + next
  }

  predicate NonEmpty(sq: Option<Clauses>) {
    sq.Some? && |sq.value| > 0
  }

  datatype PredicateReturn = PredicateReturn(pred: Option<Predicate>, preComputedSubqueries: Option<Clauses>)

  datatype WhereArg = WhereArg(fields: seq<WhereField>)

  /** A key of a filter: a property key with its raw value, or a logical
      operator key with one filter or a list of filters. */
  datatype WhereField =
    | PropertyField(key: string, value: Json)
    | LogicalField(op: LogicalOperator, filters: LogicalValue)

  datatype LogicalValue = One(arg: WhereArg) | Many(args: seq<WhereArg>)

  /** `asArray`: a single filter becomes a one-element list. */
  function AsArray(v: LogicalValue): (r: seq<WhereArg>)
    ensures v.One? ==> |r| == 1 && r[0] == v.arg
    ensures v.Many? ==> r == v.args
    ensures forall i :: 0 <= i < |r| ==> r[i] < v
  {
    match v
    case One(a) => [a]
    case Many(args) => args
  }

  /** State of the `forEach` loops: predicates found so far and the
      subqueries gathered so far. */
  datatype Acc = Acc(predicates: seq<Predicate>, subqueries: Option<Clauses>)

  /** Where the loop runs: at the top level of `createWherePredicate`, or
      over the elements of a logical operator in `createNestedPredicate`. */
  datatype Level = TopLevel | InsideLogical

  /** One iteration of either loop. At the top level a key's subqueries are
      kept only with its predicate; inside a logical operator they are kept
      whenever non-empty. */
  function Step(acc: Acc, ret: PredicateReturn, level: Level): (r: Acc)
    // a present predicate is appended, an absent one changes nothing
    ensures |r.predicates| == |acc.predicates| + (if ret.pred.Some? then 1 else 0)
    ensures r.predicates[..|acc.predicates|] == acc.predicates
    ensures ret.pred.Some? ==> r.predicates[|acc.predicates|] == ret.pred.value
    // kept subqueries are appended after those gathered so far
    ensures Kept(ret, level) ==> r.subqueries.Some? && r.subqueries.value == Concat(acc.subqueries, ret.preComputedSubqueries.value)
    ensures !Kept(ret, level) ==> r.subqueries == acc.subqueries
    // at the top level a key without a predicate leaves the state untouched
    ensures level == TopLevel && ret.pred.None? ==> r == acc
  {
    var predicates := if ret.pred.Some? then acc.predicates + [ret.pred.value] else acc.predicates;
    Acc(predicates, if Kept(ret, level) then Some(Concat(acc.subqueries, ret.preComputedSubqueries.value)) else acc.subqueries)
  }

  /** Whether the loop keeps the subqueries of one result. */
  function Kept(ret: PredicateReturn, level: Level): (b: bool)
    // only non-empty subqueries are ever kept
    ensures b ==> ret.preComputedSubqueries.Some? && |ret.preComputedSubqueries.value| > 0
    // inside a logical operator every non-empty subquery is kept
    ensures level == InsideLogical ==> (b <==> NonEmpty(ret.preComputedSubqueries))
    // at the top level only those that come with a predicate
    ensures level == TopLevel ==> (b <==> NonEmpty(ret.preComputedSubqueries) && ret.pred.Some?)
  {
    NonEmpty(ret.preComputedSubqueries) && (level == InsideLogical || ret.pred.Some?)
  }

  /** The loop over a list of per-key results, left to right. */
  function Accumulate(rets: seq<PredicateReturn>, level: Level): (r: Acc)
    ensures |r.predicates| <= |rets|
  {
    if |rets| == 0 then Acc([], None)
    else Step(Accumulate(rets[..|rets| - 1], level), rets[|rets| - 1], level)
  }

  /** `createWherePredicate`. */
  function CreateWherePredicate<E, V>(pw: (string, Json, E, V) -> PredicateReturn, w: WhereArg, element: E, target: V)
    : (r: PredicateReturn)
    // an implicit AND of at most one operand per key
    ensures r.pred.Some? ==> r.pred.value.Logical? && r.pred.value.op == AND
                             && 0 < |r.pred.value.operands| <= |w.fields|
    decreases w
  {
    var acc := Accumulate(FieldReturns(pw, w.fields, element, target), TopLevel);
    PredicateReturn(Combine(AND, acc.predicates), acc.subqueries)
  }

  /** The result of each key, in encounter order. */
  function FieldReturns<E, V>(pw: (string, Json, E, V) -> PredicateReturn, fields: seq<WhereField>, element: E, target: V)
    : (rets: seq<PredicateReturn>)
    ensures |rets| == |fields|
    ensures forall k :: 0 <= k < |fields| ==> rets[k] == FieldReturn(pw, fields[k], element, target)
    decreases fields
  {
    if |fields| == 0 then []
    else [FieldReturn(pw, fields[0], element, target)] + FieldReturns(pw, fields[1..], element, target)
  }

  /** The result of one key. */
  function FieldReturn<E, V>(pw: (string, Json, E, V) -> PredicateReturn, f: WhereField, element: E, target: V)
    : (r: PredicateReturn)
    // a property key goes to the collaborator with the same element and target
    ensures f.PropertyField? ==> r == pw(f.key, f.value, element, target)
    // a logical key's predicate uses its operator, one operand per filter at most
    ensures f.LogicalField? && r.pred.Some? ==>
      r.pred.value.Logical? && r.pred.value.op == f.op && |r.pred.value.operands| <= |AsArray(f.filters)|
    decreases f
  {
    match f
    case PropertyField(key, value) => pw(key, value, element, target)
    case LogicalField(op, value) => CreateNestedPredicate(pw, op, value, element, target)
  }

  /** `createNestedPredicate`: every filter of the value is compiled against
      the same element and target; the results are combined with the
      key's operator. */
  function CreateNestedPredicate<E, V>(
    pw: (string, Json, E, V) -> PredicateReturn, op: LogicalOperator, value: LogicalValue, element: E, target: V)
    : (r: PredicateReturn)
    // the key's operator over at most one operand per filter
    ensures r.pred.Some? ==> r.pred.value.Logical? && r.pred.value.op == op
                             && 0 < |r.pred.value.operands| <= |AsArray(value)|
    decreases value, |AsArray(value)| + 1
  {
    var acc := Accumulate(NestedReturns(pw, value, 0, element, target), InsideLogical);
    PredicateReturn(Combine(op, acc.predicates), acc.subqueries)
  }

  /** The results of the filters of a logical value from index `i` on. */
  function NestedReturns<E, V>(
    pw: (string, Json, E, V) -> PredicateReturn, value: LogicalValue, i: nat, element: E, target: V)
    : (rets: seq<PredicateReturn>)
    requires i <= |AsArray(value)|
    ensures |rets| == |AsArray(value)| - i
    ensures forall k :: 0 <= k < |rets| ==> rets[k] == CreateWherePredicate(pw, AsArray(value)[i + k], element, target)
    decreases value, |AsArray(value)| - i
  {
    if i == |AsArray(value)| then []
    else
      [CreateWherePredicate(pw, AsArray(value)[i], element, target)] + NestedReturns(pw, value, i + 1, element, target)
  }
}
