/** Comparison operations of the expression IR: an operator from a closed
    set of eight placed between an optional left and an optional right
    operand. Operands are expressions of any kind; how they render is given
    by the caller's `render` function. */
module Comparison {
  import opened Wrappers
  import opened Values

  datatype ComparisonOperator =
    | Equal
    | Less
    | Greater
    | NotEqual
    | LessOrEqual
    | GreaterOrEqual
    | Null
    | NotNull

  predicate EndsWith(s: string, suffix: string) {
    |suffix| <= |s| && s[|s| - |suffix|..] == suffix
  }

  /** Recognises the text of an operator; the inverse of `OperatorText`. */
  function ParseOperator(s: string): Option<ComparisonOperator> {
    if s == "=" then Some(Equal)
    else if s == "<" then Some(Less)
    else if s == ">" then Some(Greater)
    else if s == "<>" then Some(NotEqual)
    else if s == "<=" then Some(LessOrEqual)
    else if s == ">=" then Some(GreaterOrEqual)
    else if s == "IS NULL" then Some(Null)
    else if s == "IS NOT NULL" then Some(NotNull)
    else None
  }

  /** The Cypher text of an operator; no two operators share a text. */
  function OperatorText(op: ComparisonOperator): (t: string)
    ensures ParseOperator(t) == Some(op)
    ensures |t| > 0
  {
    match op
    case Equal => "="
    case Less => "<"
    case Greater => ">"
    case NotEqual => "<>"
    case LessOrEqual => "<="
    case GreaterOrEqual => ">="
    case Null => "IS NULL"
    case NotNull => "IS NOT NULL"
  }

  datatype ComparisonOp<E> = ComparisonOp(operator: ComparisonOperator, left: Option<E>, right: Option<E>)

  /** Renders the operation: the left operand and a space when there is a
      left operand, the operator, then a space and the right operand when
      there is a right operand. */
  function Cypher<E>(c: ComparisonOp<E>, render: E -> string): (s: string)
    ensures c.left.None? && c.right.None? ==> s == OperatorText(c.operator)
    ensures c.left.Some? ==> StartsWith(s, render(c.left.value) + " ")
    ensures c.left.None? ==> StartsWith(s, OperatorText(c.operator))
    ensures c.right.Some? ==> EndsWith(s, " " + render(c.right.value))
    ensures c.right.None? ==> EndsWith(s, OperatorText(c.operator))
    ensures |s| == |OperatorText(c.operator)|
                   + (if c.left.Some? then |render(c.left.value)| + 1 else 0)
                   + (if c.right.Some? then |render(c.right.value)| + 1 else 0)
  {
    var leftStr := if c.left.Some? then render(c.left.value) + " " else "";
    var rightStr := if c.right.Some? then " " + render(c.right.value) else "";
    assert (leftStr + OperatorText(c.operator) + rightStr)[..|leftStr|] == leftStr;
    leftStr + OperatorText(c.operator) + rightStr
  }

  function Eq<E>(l: E, r: E): (c: ComparisonOp<E>)
    ensures c.operator == Equal && c.left == Some(l) && c.right == Some(r)
  {
    ComparisonOp(Equal, Some(l), Some(r))
  }

  function Gt<E>(l: E, r: E): (c: ComparisonOp<E>)
    ensures c.operator == Greater && c.left == Some(l) && c.right == Some(r)
  {
    ComparisonOp(Greater, Some(l), Some(r))
  }

  function Gte<E>(l: E, r: E): (c: ComparisonOp<E>)
    ensures c.operator == GreaterOrEqual && c.left == Some(l) && c.right == Some(r)
  {
    ComparisonOp(GreaterOrEqual, Some(l), Some(r))
  }

  function Lt<E>(l: E, r: E): (c: ComparisonOp<E>)
    ensures c.operator == Less && c.left == Some(l) && c.right == Some(r)
  {
    ComparisonOp(Less, Some(l), Some(r))
  }

  function Lte<E>(l: E, r: E): (c: ComparisonOp<E>)
    ensures c.operator == LessOrEqual && c.left == Some(l) && c.right == Some(r)
  {
    ComparisonOp(LessOrEqual, Some(l), Some(r))
  }

  function IsNull<E>(x: E): (c: ComparisonOp<E>)
    ensures c.operator == Null && c.left == Some(x) && c.right.None?
  {
    ComparisonOp(Null, Some(x), None)
  }

  function IsNotNull<E>(x: E): (c: ComparisonOp<E>)
    ensures c.operator == NotNull && c.left == Some(x) && c.right.None?
  {
    ComparisonOp(NotNull, Some(x), None)
  }

  /** Between the rendered operands of a binary comparison, separated by
      one space on each side, sits exactly the operator, so it can be read
      back. */
  lemma {:induction false} BinaryOperatorRecoverable<E>(op: ComparisonOperator, l: E, r: E, render: E -> string)
    ensures var s := Cypher(ComparisonOp(op, Some(l), Some(r)), render);
            var lo := |render(l)| + 1;
            var hi := |s| - |render(r)| - 1;
            && lo <= hi
            && s[..lo] == render(l) + " "
            && s[hi..] == " " + render(r)
            && ParseOperator(s[lo..hi]) == Some(op)
  {
    var t := OperatorText(op);
    var s := Cypher(ComparisonOp(op, Some(l), Some(r)), render);
    assert s == (render(l) + " ") + t + (" " + render(r));
    var lo := |render(l)| + 1;
    var hi := |s| - |render(r)| - 1;
    assert s[lo..hi] == t;
  }

  /** A null test and a not-null test never render to the same text,
      whatever their operands. */
  lemma {:induction false} NullTestsDistinct<E>(x: E, y: E, render: E -> string)
    ensures Cypher(IsNull(x), render) != Cypher(IsNotNull(y), render)
  {
    var a := Cypher(IsNull(x), render);
    var b := Cypher(IsNotNull(y), render);
    assert EndsWith(a, " IS NULL") by {
      assert a == render(x) + " " + "IS NULL";
    }
    assert EndsWith(b, "NOT NULL");
  }
}
