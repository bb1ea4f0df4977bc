/** Properties of the current where compiler: the implicit AND at one
    level, the operator of a logical key, the dropping of absent
    predicates, the subquery rules at both levels, and that every nested
    filter is compiled against the same element and target. */
module WherePredicateProperties {
  import opened Wrappers
  import opened Values
  import opened WherePredicate

  /** Reference reading of a list of results: their present predicates, in
      order. */
  function Present(rets: seq<PredicateReturn>): seq<Predicate> {
    if |rets| == 0 then []
    else (if rets[0].pred.Some? then [rets[0].pred.value] else []) + Present(rets[1..])
  }

  /** Reference reading of a list of results: the kept subqueries, joined
      in order; absent when none is kept. */
  function GatheredSubqueries(rets: seq<PredicateReturn>, level: Level): Option<Clauses> {
    if |rets| == 0 then None
    else
      var rest := GatheredSubqueries(rets[1..], level);
      if Kept(rets[0], level) then Some(rets[0].preComputedSubqueries.value + Concat(rest, []))
      else rest
  }

  lemma {:induction false} PresentAppend(init: seq<PredicateReturn>, x: PredicateReturn)
    ensures Present(init + [x]) == Present(init) + (if x.pred.Some? then [x.pred.value] else [])
  {
    if |init| > 0 {
      assert (init + [x])[1..] == init[1..] + [x];
      PresentAppend(init[1..], x);
    }
  }

  lemma {:induction false} GatheredAppend(init: seq<PredicateReturn>, x: PredicateReturn, level: Level)
    ensures GatheredSubqueries(init + [x], level)
         == if Kept(x, level) then Some(Concat(GatheredSubqueries(init, level), x.preComputedSubqueries.value))
            else GatheredSubqueries(init, level)
  {
    if |init| == 0 {
      assert init + [x] == [x];
      assert [x][1..] == [];
      assert GatheredSubqueries([], level).None?;
      if Kept(x, level) {
        var xs := x.preComputedSubqueries.value;
        assert GatheredSubqueries([x], level) == Some(xs + Concat(None, []));
        assert xs + Concat(None, []) == Concat(None, xs);
      }
    } else {
      var h := init[0];
      var t := init[1..];
      assert (init + [x])[0] == h;
      assert (init + [x])[1..] == t + [x];
      GatheredAppend(t, x, level);
      var restT := GatheredSubqueries(t, level);
      var opt := if restT.Some? then restT.value else [];
      if Kept(h, level) && Kept(x, level) {
        var hs := h.preComputedSubqueries.value;
        var xs := x.preComputedSubqueries.value;
        assert GatheredSubqueries(t + [x], level) == Some(opt + xs);
        assert GatheredSubqueries(init + [x], level) == Some(hs + ((opt + xs) + []));
        assert GatheredSubqueries(init, level) == Some(hs + (opt + []));
        assert (opt + xs) + [] == opt + xs;
        assert opt + [] == opt;
        assert hs + (opt + xs) == (hs + opt) + xs;
      }
    }
  }

  /** The left-to-right loop gathers exactly the present predicates and the
      kept subqueries, in order. */
  lemma {:induction false} AccumulateMeaning(rets: seq<PredicateReturn>, level: Level)
    ensures Accumulate(rets, level) == Acc(Present(rets), GatheredSubqueries(rets, level))
  {
    if |rets| > 0 {
      var init := rets[..|rets| - 1];
      var x := rets[|rets| - 1];
      assert rets == init + [x];
      AccumulateMeaning(init, level);
      PresentAppend(init, x);
      GatheredAppend(init, x, level);
    }
  }

  /** All predicates of one level are combined by a single AND, in key
      order, absent ones dropped; subqueries of a key are kept only along
      with its predicate. */
  lemma TopLevelIsImplicitAnd<E, V>(pw: (string, Json, E, V) -> PredicateReturn, w: WhereArg, element: E, target: V)
    ensures var rets := FieldReturns(pw, w.fields, element, target);
            CreateWherePredicate(pw, w, element, target)
              == PredicateReturn(Combine(AND, Present(rets)), GatheredSubqueries(rets, TopLevel))
  {
    AccumulateMeaning(FieldReturns(pw, w.fields, element, target), TopLevel);
  }

  /** A logical key compiles each of its filters against the same element
      and target, combines the present predicates with the key's own
      operator, and keeps every non-empty subquery. */
  lemma LogicalKeyCombinesWithItsOperator<E, V>(
    pw: (string, Json, E, V) -> PredicateReturn, op: LogicalOperator, value: LogicalValue, element: E, target: V)
    ensures var rets := NestedReturns(pw, value, 0, element, target);
            && |rets| == |AsArray(value)|
            && (forall i :: 0 <= i < |rets| ==> rets[i] == CreateWherePredicate(pw, AsArray(value)[i], element, target))
            && FieldReturn(pw, LogicalField(op, value), element, target)
                 == PredicateReturn(Combine(op, Present(rets)), GatheredSubqueries(rets, InsideLogical))
  {
    AccumulateMeaning(NestedReturns(pw, value, 0, element, target), InsideLogical);
  }

  /** With no predicate at all, a level returns no subqueries either. */
  lemma {:induction false} NoPredicateNoSubqueries(rets: seq<PredicateReturn>)
    requires Present(rets) == []
    ensures GatheredSubqueries(rets, TopLevel).None?
  {
    if |rets| > 0 {
      NoPredicateNoSubqueries(rets[1..]);
    }
  }

  /** Hence `createWherePredicate` never returns subqueries without a
      predicate. */
  lemma CompiledSubqueriesNeedPredicate<E, V>(pw: (string, Json, E, V) -> PredicateReturn, w: WhereArg, element: E, target: V)
    ensures CreateWherePredicate(pw, w, element, target).pred.None? ==>
              CreateWherePredicate(pw, w, element, target).preComputedSubqueries.None?
  {
    var rets := FieldReturns(pw, w.fields, element, target);
    TopLevelIsImplicitAnd(pw, w, element, target);
    if Present(rets) == [] {
      NoPredicateNoSubqueries(rets);
    }
  }

  /** A key that yields no predicate contributes nothing at the top level,
      neither a predicate nor subqueries. */
  lemma AbsentKeyDropped<E, V>(pw: (string, Json, E, V) -> PredicateReturn, fs: seq<WhereField>, f: WhereField, element: E, target: V)
    ensures FieldReturn(pw, f, element, target).pred.None? ==>
              CreateWherePredicate(pw, WhereArg(fs + [f]), element, target) == CreateWherePredicate(pw, WhereArg(fs), element, target)
  {
    var rets := FieldReturns(pw, fs, element, target);
    var all := FieldReturns(pw, fs + [f], element, target);
    assert all == rets + [FieldReturn(pw, f, element, target)];
    assert all[..|all| - 1] == rets;
  }

  /** The one rule where the levels differ: a result with subqueries but no
      predicate is ignored at the top level and kept inside a logical
      operator. */
  lemma SubqueryAsymmetry(acc: Acc, sub: Clauses)
    requires |sub| > 0
    ensures Step(acc, PredicateReturn(None, Some(sub)), TopLevel) == acc
    ensures Step(acc, PredicateReturn(None, Some(sub)), InsideLogical) == Acc(acc.predicates, Some(Concat(acc.subqueries, sub)))
  {
  }

  /** The collaborators agree on this element and target. */
  ghost predicate AgreeOn<E, V>(pw1: (string, Json, E, V) -> PredicateReturn, pw2: (string, Json, E, V) -> PredicateReturn, element: E, target: V) {
    forall k, v :: pw1(k, v, element, target) == pw2(k, v, element, target)
  }

  /** Compilation only ever asks the property-where collaborator about the
      element and target it started with, however deep the logical
      nesting: collaborators that agree there give the same result. */
  lemma {:induction false} SameElementThroughout<E, V>(
    pw1: (string, Json, E, V) -> PredicateReturn, pw2: (string, Json, E, V) -> PredicateReturn,
    w: WhereArg, element: E, target: V)
    requires AgreeOn(pw1, pw2, element, target)
    ensures CreateWherePredicate(pw1, w, element, target) == CreateWherePredicate(pw2, w, element, target)
    decreases w
  {
    SameElementFields(pw1, pw2, w.fields, element, target);
  }

  lemma {:induction false} SameElementFields<E, V>(
    pw1: (string, Json, E, V) -> PredicateReturn, pw2: (string, Json, E, V) -> PredicateReturn,
    fields: seq<WhereField>, element: E, target: V)
    requires AgreeOn(pw1, pw2, element, target)
    ensures FieldReturns(pw1, fields, element, target) == FieldReturns(pw2, fields, element, target)
    decreases fields
  {
    if |fields| > 0 {
      SameElementField(pw1, pw2, fields[0], element, target);
      SameElementFields(pw1, pw2, fields[1..], element, target);
    }
  }

  lemma {:induction false} SameElementField<E, V>(
    pw1: (string, Json, E, V) -> PredicateReturn, pw2: (string, Json, E, V) -> PredicateReturn,
    f: WhereField, element: E, target: V)
    requires AgreeOn(pw1, pw2, element, target)
    ensures FieldReturn(pw1, f, element, target) == FieldReturn(pw2, f, element, target)
    decreases f
  {
    match f
    case PropertyField(key, value) =>
    case LogicalField(op, value) =>
      SameElementNested(pw1, pw2, value, 0, element, target);
  }

  lemma {:induction false} SameElementNested<E, V>(
    pw1: (string, Json, E, V) -> PredicateReturn, pw2: (string, Json, E, V) -> PredicateReturn,
    value: LogicalValue, i: nat, element: E, target: V)
    requires AgreeOn(pw1, pw2, element, target)
    requires i <= |AsArray(value)|
    ensures NestedReturns(pw1, value, i, element, target) == NestedReturns(pw2, value, i, element, target)
    decreases value, |AsArray(value)| - i
  {
    if i < |AsArray(value)| {
      assert AsArray(value)[i] < value by {
        if value.Many? {
          assert value.args[i] in value.args;
        }
      }
      SameElementThroughout(pw1, pw2, AsArray(value)[i], element, target);
      SameElementNested(pw1, pw2, value, i + 1, element, target);
    }
  }

  /** No predicate is present exactly when every result lacks one. */
  lemma {:induction false} PresentEmpty(rets: seq<PredicateReturn>)
    ensures Present(rets) == [] <==> forall k :: 0 <= k < |rets| ==> rets[k].pred.None?
  {
    if |rets| > 0 {
      PresentEmpty(rets[1..]);
      assert forall k :: 1 <= k < |rets| ==> rets[k] == rets[1..][k - 1];
    }
  }

  /** Either loop collects no predicate exactly when every result lacks
      one. */
  lemma AccumulateEmpty(rets: seq<PredicateReturn>, level: Level)
    ensures Accumulate(rets, level).predicates == [] <==> forall k :: 0 <= k < |rets| ==> rets[k].pred.None?
  {
    AccumulateMeaning(rets, level);
    PresentEmpty(rets);
  }

  /** A level yields no predicate exactly when none of its keys does. */
  lemma NoKeyPredicateIffNone<E, V>(pw: (string, Json, E, V) -> PredicateReturn, w: WhereArg, element: E, target: V)
    ensures CreateWherePredicate(pw, w, element, target).pred.None?
        <==> forall k :: 0 <= k < |w.fields| ==> FieldReturn(pw, w.fields[k], element, target).pred.None?
  {
    AccumulateEmpty(FieldReturns(pw, w.fields, element, target), TopLevel);
  }

  /** A logical key yields no predicate exactly when none of its filters
      does. */
  lemma NoFilterPredicateIffNone<E, V>(
    pw: (string, Json, E, V) -> PredicateReturn, op: LogicalOperator, value: LogicalValue, element: E, target: V)
    ensures CreateNestedPredicate(pw, op, value, element, target).pred.None?
        <==> forall k :: 0 <= k < |AsArray(value)| ==> CreateWherePredicate(pw, AsArray(value)[k], element, target).pred.None?
  {
    var rets := NestedReturns(pw, value, 0, element, target);
    var args := AsArray(value);
    LogicalKeyCombinesWithItsOperator(pw, op, value, element, target);
    PresentEmpty(rets);
    var r := CreateNestedPredicate(pw, op, value, element, target);
    assert r == FieldReturn(pw, LogicalField(op, value), element, target);
    assert r.pred.None? <==> Present(rets) == [];
    assert (forall k :: 0 <= k < |rets| ==> rets[k].pred.None?)
       <==> (forall k :: 0 <= k < |args| ==> CreateWherePredicate(pw, args[k], element, target).pred.None?);
  }
}
