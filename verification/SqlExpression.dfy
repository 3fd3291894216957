/**
 db/sql/sql_expression.go: expression trees of SQL statements and the helper functions that build
 them.
 */
module SqlExpression {
  import opened Wrappers

  /** A value that is bound to a placeholder. */
  type Value = nat

  /** A pointer to a field of an entity. */
  type Pointer = nat

  datatype Expression =
    | PrefixedExp(prefix: string, after: seq<Expression>, suffix: string, binding: seq<Value>)
    | FieldExpression(pointer: Pointer, afterField: Option<Expression>)

  /** sql_expression.go:119-121. */
  function SELECT(entity: Value, after: Expression, binding: seq<Value>): Expression {
    PrefixedExp("SELECT", [FROM(entity, after)], "", binding)
  }

  /** sql_expression.go:126-128. */
  function FROM(entity: Value, after: Expression): Expression {
    PrefixedExp("FROM", [after], "", [entity])
  }

  /** sql_expression.go:131-133. */
  function WHERE(after: seq<Expression>): Expression {
    PrefixedExp(" WHERE ", after, "", [])
  }

  /** sql_expression.go:136-138. */
  function DELETE(after: Expression): Expression {
    PrefixedExp("DELETE", [after], "", [])
  }

  /** sql_expression.go:144-146. */
  function Exp(statement: string, binding: seq<Value>): Expression {
    PrefixedExp(statement, [], "", binding)
  }

  /** sql_expression.go:257-259. */
  function Parenthesis(inside: seq<Expression>): Expression {
    PrefixedExp("(", inside, ")", [])
  }

  /** sql_expression.go:204-209; further operands are ignored. */
  function Field(pointer: Pointer, rightOperand: seq<Expression>): Expression {
    FieldExpression(pointer, if rightOperand == [] then None else Some(rightOperand[0]))
  }

  /** sql_expression.go:217-219; the pointer is the value that is bound. */
  function FieldEQ(pointer: Pointer): Expression {
    FieldExpression(pointer, Some(Comparison(EQ, pointer)))
  }

  datatype Operator = EQ | GT | GTE | LT | LTE

  /** The spelling of the operators, sql_expression.go:232-254. */
  function Spelling(op: Operator): string {
    match op
    case EQ => " = "
    case GT => " > "
    case GTE => " => "
    case LT => " < "
    case LTE => " =< "
  }

  /** The functions EQ, GT, GTE, LT and LTE. */
  function Comparison(op: Operator, binding: Value): Expression {
    PrefixedExp(Spelling(op), [Exp("?", [binding])], "", [])
  }

  /** strings.Repeat(",?", n). */
  function Refs(n: nat): (r: string)
    ensures |r| == 2 * n
  {
    if n == 0 then "" else Refs(n - 1) + ",?"
  }

  /** sql_expression.go:263-266; without values the slice bound panics. */
  function IN(binding: seq<Value>): Expression
    requires binding != []
  {
    PrefixedExp(" IN(", [], Refs(|binding|)[1..] + ")", binding)
  }

  datatype Junction = AND | OR

  function Keyword(j: Junction): string {
    if j == AND then " AND " else " OR "
  }

  /** The operands with the bare operator between any two neighbours. */
  function Joined(j: Junction, inside: seq<Expression>): seq<Expression> {
    if inside == [] then []
    else if |inside| == 1 then inside
    else Joined(j, inside[..|inside| - 1]) + [Exp(Keyword(j), []), inside[|inside| - 1]]
  }

  /** AND and OR of some operands: none gives the bare operator, one an infix fragment. */
  function Junct(j: Junction, inside: seq<Expression>): Expression {
    if |inside| == 0 then Exp(Keyword(j), [])
    else if |inside| == 1 then PrefixedExp(Keyword(j), inside, "", [])
    else Parenthesis(Joined(j, inside))
  }

  /** sql_expression.go:179-197. */
  method IntelligentOperator(j: Junction, inside: seq<Expression>) returns (exp: Expression)
    ensures exp == Junct(j, inside)
  {
    var emptyOperator := Exp(Keyword(j), []);
    if |inside| == 0 {
      return emptyOperator;
    }
    if |inside| == 1 {
      return PrefixedExp(emptyOperator.prefix, inside, "", []);
    }
    var inside2 := [];
    for i := 0 to |inside|
      invariant inside2 == Joined(j, inside[..i])
    {
      assert inside[..i + 1][..i] == inside[..i];
      if i > 0 {
        inside2 := inside2 + [emptyOperator, inside[i]];
      } else {
        inside2 := inside2 + [inside[i]];
      }
    }
    assert inside[..|inside|] == inside;
    return Parenthesis(inside2);
  }
}
