/** Properties of the legacy where compiler: the operator-suffix table read
    in both directions, the null-check negation pair of relation filters,
    and the flattening of `AND`/`OR` lists. */
module LegacyWhereProperties {
  import opened Wrappers
  import Values
  import opened Schema
  import opened NodeRefs
  import opened LegacyWhere

  /** The suffixes the primitive-field table accepts: none, `NOT`, every
      comparator's name and `NOT_` before a negatable comparator's name. */
  predicate InTable(op: string) {
    || op == ""
    || op == "NOT"
    || (exists c :: op == ComparatorName(c))
    || (exists c :: Negatable(c) && op == "NOT_" + ComparatorName(c))
  }

  /** Each comparator's suffix selects that comparator. */
  lemma PositiveSuffix(t: NodeRef, c: Comparator, db: string, v: WhereValue)
    ensures CreatePrimitiveProperty(t, Some(ComparatorName(c)), db, v) == Ok(Property(t, db, Compare(c, Param(v))))
  {
    match c
    case Lt =>
    case Lte =>
    case Gt =>
    case Gte =>
    case EndsWith =>
    case StartsWith =>
    case Matches =>
    case Contains =>
    case In =>
  }

  /** `NOT_` before a negatable comparator's suffix negates the positive
      item. */
  lemma NegatedSuffix(t: NodeRef, c: Comparator, db: string, v: WhereValue)
    requires Negatable(c)
    ensures CreatePrimitiveProperty(t, Some("NOT_" + ComparatorName(c)), db, v)
         == Ok(Not(CreatePrimitiveProperty(t, Some(ComparatorName(c)), db, v).value))
  {
    PositiveSuffix(t, c, db, v);
    match c
    case EndsWith =>
      assert "NOT_" + ComparatorName(c) == "NOT_ENDS_WITH";
    case StartsWith =>
      assert "NOT_" + ComparatorName(c) == "NOT_STARTS_WITH";
    case Contains =>
      assert "NOT_" + ComparatorName(c) == "NOT_CONTAINS";
    case In =>
      assert "NOT_" + ComparatorName(c) == "NOT_IN";
  }

  /** `NOT` alone negates equality. */
  lemma NotSuffixNegatesEquality(t: NodeRef, db: string, v: WhereValue)
    ensures CreatePrimitiveProperty(t, Some("NOT"), db, v) == Ok(Not(Property(t, db, Equals(Param(v)))))
    ensures CreatePrimitiveProperty(t, Some("NOT"), db, v) == Ok(Not(CreatePrimitiveProperty(t, None, db, v).value))
  {
  }

  /** A suffix is rejected, with an error naming it, exactly when it is
      outside the table. */
  lemma InvalidOperatorIffOutsideTable(t: NodeRef, op: string, db: string, v: WhereValue)
    ensures CreatePrimitiveProperty(t, Some(op), db, v).Err? <==> !InTable(op)
    ensures CreatePrimitiveProperty(t, Some(op), db, v).Err? ==>
              CreatePrimitiveProperty(t, Some(op), db, v).error == InvalidOperator(op)
  {
    if InTable(op) {
      if op == "" || op == "NOT" {
      } else if exists c :: op == ComparatorName(c) {
        var c :| op == ComparatorName(c);
        PositiveSuffix(t, c, db, v);
      } else {
        var c :| Negatable(c) && op == "NOT_" + ComparatorName(c);
        NegatedSuffix(t, c, db, v);
      }
    } else {
      assert op != ComparatorName(Lt) && op != ComparatorName(Lte);
      assert op != ComparatorName(Gt) && op != ComparatorName(Gte);
      assert op != ComparatorName(EndsWith) && op != ComparatorName(StartsWith);
      assert op != ComparatorName(Matches) && op != ComparatorName(Contains) && op != ComparatorName(In);
      assert op != "NOT_" + ComparatorName(EndsWith) && op != "NOT_" + ComparatorName(StartsWith);
      assert op != "NOT_" + ComparatorName(Contains) && op != "NOT_" + ComparatorName(In);
    }
  }

  /** The negation flag of relation filters agrees with the primitive
      table: positive suffixes are not negated, `NOT_` forms are. */
  lemma IsNotAgreesWithTable(c: Comparator)
    ensures !IsNot(Some(ComparatorName(c)))
    ensures Negatable(c) ==> IsNot(Some("NOT_" + ComparatorName(c)))
    ensures IsNot(Some("NOT"))
  {
    var name := ComparatorName(c);
    assert Values.StartsWith("NOT", "NOT");
    if Negatable(c) {
      assert ("NOT_" + name)[..3] == "NOT";
    }
    assert name[0] != 'N' by {
      match c
      case Lt =>
      case Lte =>
      case Gt =>
      case Gte =>
      case EndsWith =>
      case StartsWith =>
      case Matches =>
      case Contains =>
      case In =>
    }
  }

  /** A filter holding one key. */
  function OneKey(key: WhereKey, value: WhereValue): WhereInput {
    WhereInput([WhereEntry(key, value)])
  }

  /** A single leaf key on a non-relation field with a suffix outside the
      table fails with `Invalid operator <op>`. */
  lemma UnknownSuffixFails(env: Env, node: NodeDesc, t: NodeRef, field: string, op: string, v: WhereValue)
    requires FindRelationField(node.relationFields, field).None?
    requires !InTable(op)
    ensures MapAllProperties(env, node, t, OneKey(FieldKey(field, Some(op)), v)) == Err(InvalidOperator(op))
  {
    var w := OneKey(FieldKey(field, Some(op)), v);
    assert Leaves(w.entries) == w.entries;
    assert LogicalEntries(w.entries) == [];
    InvalidOperatorIffOutsideTable(t, op, env.toDb(node, field), v);
  }

  /** `{rel: null}` compiles to the negation of what `{rel_NOT: null}`
      compiles to, and the latter is the existence test over the relation's
      pattern. */
  lemma NullRelationFilters(env: Env, node: NodeDesc, t: NodeRef, rf: RelationField)
    requires FindRelationField(node.relationFields, rf.fieldName) == Some(rf)
    requires FindNode(env.context.nodes, rf.typeName).Some?
    ensures var child := ChildNode(FindNode(env.context.nodes, rf.typeName).value, t);
            var existence := Exists(ExistencePattern(rf, child, t));
            && MapAllProperties(env, node, t, OneKey(FieldKey(rf.fieldName, Some("NOT")), NullValue)) == Ok([existence])
            && MapAllProperties(env, node, t, OneKey(FieldKey(rf.fieldName, None), NullValue)) == Ok([Not(existence)])
  {
    var wNot := OneKey(FieldKey(rf.fieldName, Some("NOT")), NullValue);
    var wPlain := OneKey(FieldKey(rf.fieldName, None), NullValue);
    var child := ChildNode(FindNode(env.context.nodes, rf.typeName).value, t);
    var existence := Exists(ExistencePattern(rf, child, t));
    assert IsNot(Some("NOT")) by {
      assert Values.StartsWith("NOT", "NOT");
    }
    assert Leaves(wNot.entries) == wNot.entries && LogicalEntries(wNot.entries) == [];
    assert MapProperty(env, node, t, wNot.entries[0], wNot) == Ok(existence);
    assert MapProperties(env, node, t, wNot.entries, wNot).Ok?;
    assert MapProperties(env, node, t, wNot.entries, wNot).value == [existence];
    assert Leaves(wPlain.entries) == wPlain.entries && LogicalEntries(wPlain.entries) == [];
    assert MapProperty(env, node, t, wPlain.entries[0], wPlain) == Ok(Not(existence));
    assert MapProperties(env, node, t, wPlain.entries, wPlain).Ok?;
    assert MapProperties(env, node, t, wPlain.entries, wPlain).value == [Not(existence)];
  }

  /** A relation filter with a nested filter object is the existence test
      AND a list predicate over the related nodes, whose nested where is
      the nested filter compiled against the related node; an error of the
      nested filter is the error of the whole. The suffix picks the
      quantifier (`ALL`, `NOT`/`NONE`, `SINGLE`, anything else: any), and
      the pattern is oriented by the relation's direction. */
  lemma RelationFilterShape(env: Env, node: NodeDesc, t: NodeRef, rf: RelationField, op: Option<string>, f: WhereInput)
    requires FindRelationField(node.relationFields, rf.fieldName) == Some(rf)
    requires FindNode(env.context.nodes, rf.typeName).Some?
    ensures var refNode := FindNode(env.context.nodes, rf.typeName).value;
            var child := ChildNode(refNode, t);
            var inner := MapAllProperties(env, refNode, child, f);
            var r := MapAllProperties(env, node, t, OneKey(FieldKey(rf.fieldName, op), Nested(f)));
            && (inner.Err? ==> r == Err(inner.error))
            && (inner.Ok? ==> RelationItems(r, rf, child, t, inner.value, op))
  {
    var w := OneKey(FieldKey(rf.fieldName, op), Nested(f));
    assert Leaves(w.entries) == w.entries && LogicalEntries(w.entries) == [];
    assert Nested(f) < w by {
      assert w.entries[0] in w.entries;
    }
    var item := CreateRelationProperty(env, rf, t, op, Nested(f), IsNot(op), w);
    assert MapProperty(env, node, t, w.entries[0], w) == item;
    if item.Ok? {
      assert MapProperties(env, node, t, w.entries, w).Ok?;
      assert MapProperties(env, node, t, w.entries, w).value == [item.value];
    } else {
      assert MapProperties(env, node, t, w.entries, w) == Err(item.error);
    }
  }

  /** `r` is the single item `exists AND quantifier(pattern, child, items)`
      that a relation filter with suffix `op` compiles to. */
  predicate RelationItems(r: Result<seq<Where>, WhereError>, rf: RelationField, child: NodeRef, parent: NodeRef,
                          items: seq<Where>, op: Option<string>) {
    && r.Ok? && |r.value| == 1
    && r.value[0].And? && |r.value[0].operands| == 2
    && r.value[0].operands[0] == Exists(ExistencePattern(rf, child, parent))
    && var list := r.value[0].operands[1];
       && list.ListPredicate?
       && list.variable == child
       && list.subqueryWhere == items
       && (list.quantifier == All <==> op == Some("ALL"))
       && (list.quantifier == NoneMatch <==> op == Some("NOT") || op == Some("NONE"))
       && (list.quantifier == Single <==> op == Some("SINGLE"))
       && list.pattern == QuantifiedPattern(rf, child, parent)
  }

  /** Relation filters whose target type is not a node fail, whatever the
      value. */
  lemma RelationToNonNodeFails(env: Env, node: NodeDesc, t: NodeRef, rf: RelationField, op: Option<string>, v: WhereValue)
    requires FindRelationField(node.relationFields, rf.fieldName) == Some(rf)
    requires FindNode(env.context.nodes, rf.typeName).None?
    ensures MapAllProperties(env, node, t, OneKey(FieldKey(rf.fieldName, op), v)) == Err(RelationshipTargetNotNode)
  {
    var w := OneKey(FieldKey(rf.fieldName, op), v);
    assert Leaves(w.entries) == w.entries && LogicalEntries(w.entries) == [];
  }

  /** All items of a list of compiled filters, concatenated. */
  function Flatten(groups: seq<seq<Where>>): seq<Where> {
    if |groups| == 0 then [] else groups[0] + Flatten(groups[1..])
  }

  /** The compiled items of each filter of a list, when all compile. */
  function CompileEach(env: Env, node: NodeDesc, t: NodeRef, inputs: seq<WhereInput>): seq<seq<Where>>
    requires forall i :: 0 <= i < |inputs| ==> MapAllProperties(env, node, t, inputs[i]).Ok?
  {
    if |inputs| == 0 then []
    else [MapAllProperties(env, node, t, inputs[0]).value] + CompileEach(env, node, t, inputs[1..])
  }

  /** The filters of an `AND`/`OR` list contribute their items, in order,
      to one flat list: per-filter groups are not kept. */
  lemma {:induction false} NestedIsFlattening(env: Env, node: NodeDesc, t: NodeRef, inputs: seq<WhereInput>, w: WhereInput)
    requires forall i :: 0 <= i < |inputs| ==> inputs[i] < w
    requires forall i :: 0 <= i < |inputs| ==> MapAllProperties(env, node, t, inputs[i]).Ok?
    ensures MapNested(env, node, t, inputs, w) == Ok(Flatten(CompileEach(env, node, t, inputs)))
    decreases |inputs|
  {
    if |inputs| > 0 {
      NestedIsFlattening(env, node, t, inputs[1..], w);
    }
  }

  /** Filter `k` of `fs` is the first that fails to compile. */
  predicate FirstFailing(env: Env, node: NodeDesc, t: NodeRef, fs: seq<WhereInput>, k: int) {
    && 0 <= k < |fs|
    && MapAllProperties(env, node, t, fs[k]).Err?
    && forall j :: 0 <= j < k ==> MapAllProperties(env, node, t, fs[j]).Ok?
  }

  /** `{AND: fs}` and `{OR: fs}`, for any list of filters: when every
      filter compiles, one item combining all their items, flattened in
      order (the per-filter grouping is lost); otherwise the error of the
      first failing filter. */
  lemma LogicalKeyFlattens(env: Env, node: NodeDesc, t: NodeRef, key: WhereKey, fs: seq<WhereInput>)
    requires !key.FieldKey?
    ensures (forall i :: 0 <= i < |fs| ==> MapAllProperties(env, node, t, fs[i]).Ok?) ==>
              var items := Flatten(CompileEach(env, node, t, fs));
              MapAllProperties(env, node, t, OneKey(key, NestedList(fs)))
                == Ok([if key.AndKey? then And(items) else Or(items)])
    ensures forall k :: FirstFailing(env, node, t, fs, k) ==>
              MapAllProperties(env, node, t, OneKey(key, NestedList(fs))) == Err(MapAllProperties(env, node, t, fs[k]).error)
  {
    var w := OneKey(key, NestedList(fs));
    var e := w.entries[0];
    assert e in w.entries;
    forall i | 0 <= i < |fs|
      ensures fs[i] < w
    {
      assert fs[i] in e.value.inputs;
    }
    OneLogicalEntry(env, node, t, w);
    var n := MapNested(env, node, t, fs, w);
    assert MapLogical(env, node, t, e, w) == if n.Ok? then Ok(if key.OrKey? then Or(n.value) else And(n.value)) else Err(n.error);
    if forall i :: 0 <= i < |fs| ==> MapAllProperties(env, node, t, fs[i]).Ok? {
      NestedIsFlattening(env, node, t, fs, w);
    }
    forall k | FirstFailing(env, node, t, fs, k)
      ensures MapAllProperties(env, node, t, w) == Err(MapAllProperties(env, node, t, fs[k]).error)
    {
      assert n.Err?;
      var i0 :| 0 <= i0 < |fs| && MapAllProperties(env, node, t, fs[i0]) == Err(n.error)
                && forall j :: 0 <= j < i0 ==> MapAllProperties(env, node, t, fs[j]).Ok?;
      assert i0 == k;
    }
  }

  /** A filter made of one `AND`/`OR` entry compiles to that entry's
      combined item alone, or fails with its error. */
  lemma OneLogicalEntry(env: Env, node: NodeDesc, t: NodeRef, w: WhereInput)
    requires |w.entries| == 1 && !IsLeaf(w.entries[0])
    ensures var x := MapLogical(env, node, t, w.entries[0], w);
            MapAllProperties(env, node, t, w) == if x.Ok? then Ok([x.value]) else Err(x.error)
  {
    var x := MapLogical(env, node, t, w.entries[0], w);
    assert Leaves(w.entries) == [] && LogicalEntries(w.entries) == w.entries;
    var m := MapProperties(env, node, t, Leaves(w.entries), w);
    assert m == Ok([]);
    var r := MapLogicals(env, node, t, LogicalEntries(w.entries), w);
    if x.Ok? {
      assert r.Ok? && |r.value| == 1 && r.value[0] == x.value;
      assert r.value == [x.value];
      assert MapAllProperties(env, node, t, w) == Ok(m.value + r.value);
      assert m.value + r.value == [x.value];
    } else {
      assert r.Err?;
      assert r.error == x.error;
    }
  }

  /** Selecting the leaf keys keeps encounter order: the leaves of a
      concatenation are the leaves of each part, in turn. */
  lemma {:induction false} LeavesAppend(a: seq<WhereEntry>, b: seq<WhereEntry>)
    ensures Leaves(a + b) == Leaves(a) + Leaves(b)
  {
    if |a| > 0 {
      assert (a + b)[0] == a[0];
      assert (a + b)[1..] == a[1..] + b;
      LeavesAppend(a[1..], b);
    } else {
      assert a + b == b;
    }
  }

  /** Selecting the `AND`/`OR` keys keeps encounter order likewise. */
  lemma {:induction false} LogicalEntriesAppend(a: seq<WhereEntry>, b: seq<WhereEntry>)
    ensures LogicalEntries(a + b) == LogicalEntries(a) + LogicalEntries(b)
  {
    if |a| > 0 {
      assert (a + b)[0] == a[0];
      assert (a + b)[1..] == a[1..] + b;
      LogicalEntriesAppend(a[1..], b);
    } else {
      assert a + b == b;
    }
  }

  /** A single key is selected by exactly one of the two. */
  lemma OneEntrySelection(e: WhereEntry)
    ensures Leaves([e]) == (if IsLeaf(e) then [e] else [])
    ensures LogicalEntries([e]) == (if IsLeaf(e) then [] else [e])
  {
    assert [e][1..] == [];
  }

  /** A filter of leaf keys only compiles exactly when each key compiles,
      and then to one item per key, in key order. */
  lemma LeafOnlyFilter(env: Env, node: NodeDesc, t: NodeRef, w: WhereInput)
    requires forall i :: 0 <= i < |w.entries| ==> IsLeaf(w.entries[i])
    ensures MapAllProperties(env, node, t, w).Ok? <==>
              forall i :: 0 <= i < |w.entries| ==> MapProperty(env, node, t, w.entries[i], w).Ok?
    ensures MapAllProperties(env, node, t, w).Ok? ==>
              && |MapAllProperties(env, node, t, w).value| == |w.entries|
              && forall i :: 0 <= i < |w.entries| ==>
                   MapProperty(env, node, t, w.entries[i], w) == Ok(MapAllProperties(env, node, t, w).value[i])
  {
    OnlyLeaves(w.entries);
    assert MapLogicals(env, node, t, [], w) == Ok([]);
  }

  lemma {:induction false} OnlyLeaves(es: seq<WhereEntry>)
    requires forall i :: 0 <= i < |es| ==> IsLeaf(es[i])
    ensures Leaves(es) == es && LogicalEntries(es) == []
  {
    if |es| > 0 {
      OnlyLeaves(es[1..]);
    }
  }

  /** Leaf key `i` is the first leaf key of `w` that fails to compile. */
  predicate FirstFailingLeaf(env: Env, node: NodeDesc, t: NodeRef, w: WhereInput, i: int) {
    var leaves := Leaves(w.entries);
    && 0 <= i < |leaves|
    && MapProperty(env, node, t, leaves[i], w).Err?
    && forall k :: 0 <= k < i ==> MapProperty(env, node, t, leaves[k], w).Ok?
  }

  /** `AND`/`OR` key `j` is the first such key of `w` that fails to compile. */
  predicate FirstFailingLogical(env: Env, node: NodeDesc, t: NodeRef, w: WhereInput, j: int) {
    var logicals := LogicalEntries(w.entries);
    && 0 <= j < |logicals|
    && MapLogical(env, node, t, logicals[j], w).Err?
    && forall k :: 0 <= k < j ==> MapLogical(env, node, t, logicals[k], w).Ok?
  }

  /** The error of a filter is that of its first failing leaf key; only when
      every leaf key compiles is it that of its first failing `AND`/`OR`
      key. */
  lemma FirstFailingKeyDecides(env: Env, node: NodeDesc, t: NodeRef, w: WhereInput)
    ensures forall i :: FirstFailingLeaf(env, node, t, w, i) ==>
              MapAllProperties(env, node, t, w) == Err(MapProperty(env, node, t, Leaves(w.entries)[i], w).error)
    ensures (forall i :: 0 <= i < |Leaves(w.entries)| ==> MapProperty(env, node, t, Leaves(w.entries)[i], w).Ok?) ==>
              forall j :: FirstFailingLogical(env, node, t, w, j) ==>
                MapAllProperties(env, node, t, w) == Err(MapLogical(env, node, t, LogicalEntries(w.entries)[j], w).error)
  {
    var leaves := Leaves(w.entries);
    var logicals := LogicalEntries(w.entries);
    var m := MapProperties(env, node, t, leaves, w);
    var c := MapLogicals(env, node, t, logicals, w);
    forall i | FirstFailingLeaf(env, node, t, w, i)
      ensures MapAllProperties(env, node, t, w) == Err(MapProperty(env, node, t, leaves[i], w).error)
    {
      assert m.Err?;
      var i0 :| 0 <= i0 < |leaves| && MapProperty(env, node, t, leaves[i0], w) == Err(m.error)
                && forall k :: 0 <= k < i0 ==> MapProperty(env, node, t, leaves[k], w).Ok?;
      assert i0 == i;
    }
    if forall i :: 0 <= i < |leaves| ==> MapProperty(env, node, t, leaves[i], w).Ok? {
      forall j | FirstFailingLogical(env, node, t, w, j)
        ensures MapAllProperties(env, node, t, w) == Err(MapLogical(env, node, t, logicals[j], w).error)
      {
        assert c.Err?;
        var j0 :| 0 <= j0 < |logicals| && MapLogical(env, node, t, logicals[j0], w) == Err(c.error)
                  && forall k :: 0 <= k < j0 ==> MapLogical(env, node, t, logicals[k], w).Ok?;
        assert j0 == j;
      }
    }
  }
}
