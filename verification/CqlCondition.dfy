/**
 Nested conditions, how they are built of expressions, and the text and bindings they are rendered to.
 */
module CqlCondition {
  import opened Wrappers
  import opened SqlExpression
  import opened CqlVisitor
  import opened CqlAlignment
  import opened CqlGrammar

  /** A condition as a caller has it in mind, before it is built of expressions. */
  datatype Cond =
    | Compare(pointer: Pointer, op: Operator, v: Value)
    | Among(pointer: Pointer, vs: seq<Value>)
    | Nested(j: Junction, cs: seq<Cond>)

  /** How it is built: AND and OR around Field with a comparison or IN (sql_expression.go:159-266). */
  function Build(c: Cond): Expression
    requires Proper(c)
    decreases c, 1
  {
    match c
    case Compare(pointer, op, v) => Field(pointer, [Comparison(op, v)])
    case Among(pointer, vs) => Field(pointer, [IN(vs)])
    case Nested(j, cs) => Junct(j, BuildAll(cs))
  }

  function BuildAll(cs: seq<Cond>): (r: seq<Expression>)
    requires forall c :: c in cs ==> Proper(c)
    ensures |r| == |cs|
    decreases cs, 0
  {
    if cs == [] then [] else BuildAll(cs[..|cs| - 1]) + [Build(cs[|cs| - 1])]
  }

  /** AND and OR have at least two operands, IN has at least one value. */
  predicate Proper(c: Cond) {
    match c
    case Compare(_, _, _) => true
    case Among(_, vs) => vs != []
    case Nested(_, cs) => |cs| >= 2 && forall c :: c in cs ==> Proper(c)
  }

  /** The columns the condition names, if they exist, have plain names. */
  predicate Named(c: Cond, entity: Entity) {
    match c
    case Compare(pointer, _, _) => NamedField(pointer, entity)
    case Among(pointer, _) => NamedField(pointer, entity)
    case Nested(_, cs) => forall c :: c in cs ==> Named(c, entity)
  }

  predicate NamedField(pointer: Pointer, entity: Entity) {
    Resolvable(pointer, Some(entity)) ==> IsName(Resolve(pointer, Some(entity)).text)
  }

  /** All fields of the condition have columns. */
  predicate Resolves(c: Cond, entity: Entity) {
    match c
    case Compare(pointer, _, _) => Resolvable(pointer, Some(entity))
    case Among(pointer, _) => Resolvable(pointer, Some(entity))
    case Nested(_, cs) => forall c :: c in cs ==> Resolves(c, entity)
  }

  // ---------------------------------------------------------------- the rendered text

  /** A column and what follows it; nothing at all if there is no such column. */
  function FieldText(pointer: Pointer, after: string, entity: Entity): string {
    if Resolvable(pointer, Some(entity)) then Resolve(pointer, Some(entity)).text + after else ""
  }

  function Text(c: Cond, entity: Entity): string
    requires Proper(c)
    decreases c, 1
  {
    match c
    case Compare(pointer, op, _) => FieldText(pointer, Spelling(op) + "?", entity)
    case Among(pointer, vs) => FieldText(pointer, " IN(" + (Refs(|vs|)[1..] + ")"), entity)
    case Nested(j, cs) => "(" + (TextAll(j, cs, entity) + ")")
  }

  function TextAll(j: Junction, cs: seq<Cond>, entity: Entity): string
    requires forall c :: c in cs ==> Proper(c)
    decreases cs, 0
  {
    if cs == [] then ""
    else if |cs| == 1 then Text(cs[0], entity)
    else Text(cs[0], entity) + (Keyword(j) + TextAll(j, cs[1..], entity))
  }

  /** The values of the fields that have columns, left to right. */
  function Values(c: Cond, entity: Entity): seq<Value>
    decreases c, 1
  {
    match c
    case Compare(pointer, _, v) => if Resolvable(pointer, Some(entity)) then [v] else []
    case Among(pointer, vs) => if Resolvable(pointer, Some(entity)) then vs else []
    case Nested(_, cs) => ValuesAll(cs, entity)
  }

  function ValuesAll(cs: seq<Cond>, entity: Entity): seq<Value>
    decreases cs, 0
  {
    if cs == [] then [] else Values(cs[0], entity) + ValuesAll(cs[1..], entity)
  }

  /** The piece adds this text and these values; its error is another matter. */
  predicate Adds(piece: Piece, text: string, values: seq<Value>) {
    piece.text == text && piece.binding == values
  }

  /** The visitor writes exactly this text and collects exactly these values. */
  lemma {:induction false} RenderedCondition(c: Cond, entity: Entity)
    requires Proper(c)
    ensures Adds(Rendered(Build(c), Some(entity)), Text(c, entity), Values(c, entity))
    decreases c, 1
  {
    match c {
      case Compare(pointer, op, v) => ComparisonPiece(op, v, entity);
      case Among(pointer, vs) => InPiece(vs, entity);
      case Nested(j, cs) =>
        RenderedOperands(j, cs, entity);
        ParenthesisPiece(Joined(j, BuildAll(cs)), entity);
    }
  }

  lemma {:induction false} ComparisonPiece(op: Operator, v: Value, entity: Entity)
    ensures Rendered(Comparison(op, v), Some(entity)) == Piece(Spelling(op) + "?", [v], None)
  {
    RawPiece("?", [v], entity);
    SinglePiece(Exp("?", [v]), entity);
    assert Spelling(op) != "FROM";
    assert Spelling(op) + "?" + "" == Spelling(op) + "?";
    assert [] + [v] + [] == [v];
  }

  lemma {:induction false} RawPiece(statement: string, binding: seq<Value>, entity: Entity)
    requires statement != "FROM"
    ensures Rendered(Exp(statement, binding), Some(entity)) == Piece(statement, binding, None)
  {
    assert statement + "" + "" == statement;
    assert [] + [] + binding == binding;
  }

  lemma {:induction false} SinglePiece(exp: Expression, entity: Entity)
    ensures RenderedAll([exp], Some(entity)) == Rendered(exp, Some(entity))
  {
    assert [exp][..0] == [];
    ThenAssociates(Rendered(exp, Some(entity)), NOTHING, NOTHING);
  }

  lemma {:induction false} InPiece(vs: seq<Value>, entity: Entity)
    requires vs != []
    ensures Rendered(IN(vs), Some(entity)) == Piece(" IN(" + (Refs(|vs|)[1..] + ")"), vs, None)
  {
    var end := Refs(|vs|)[1..] + ")";
    assert " IN(" != "FROM";
    assert " IN(" + "" + end == " IN(" + end;
    assert [] + [] + vs == vs;
  }

  lemma {:induction false} ParenthesisPiece(inside: seq<Expression>, entity: Entity)
    ensures var inner := RenderedAll(inside, Some(entity));
            Rendered(Parenthesis(inside), Some(entity)) == Piece("(" + (inner.text + ")"), inner.binding, inner.error)
  {
    var inner := RenderedAll(inside, Some(entity));
    assert "(" + inner.text + ")" == "(" + (inner.text + ")");
    assert [] + inner.binding + [] == inner.binding;
  }

  lemma {:induction false} RenderedOperands(j: Junction, cs: seq<Cond>, entity: Entity)
    requires forall c :: c in cs ==> Proper(c)
    ensures Adds(RenderedAll(Joined(j, BuildAll(cs)), Some(entity)), TextAll(j, cs, entity), ValuesAll(cs, entity))
    decreases cs, 0
  {
    if cs != [] {
      var init, last := cs[..|cs| - 1], cs[|cs| - 1];
      assert cs == init + [last] && last in cs;
      assert Adds(RenderedAll(Joined(j, BuildAll(init)), Some(entity)),
                  TextAll(j, init, entity), ValuesAll(init, entity)) by {
        RenderedOperands(j, init, entity);
      }
      assert Adds(Rendered(Build(last), Some(entity)), Text(last, entity), Values(last, entity)) by {
        RenderedCondition(last, entity);
      }
      OneMoreOperand(j, init, last, entity);
    }
  }

  lemma {:induction false} OneMoreOperand(j: Junction, init: seq<Cond>, last: Cond, entity: Entity)
    requires Proper(last) && forall c :: c in init ==> Proper(c)
    requires Adds(RenderedAll(Joined(j, BuildAll(init)), Some(entity)),
                  TextAll(j, init, entity), ValuesAll(init, entity))
    requires Adds(Rendered(Build(last), Some(entity)), Text(last, entity), Values(last, entity))
    ensures forall c :: c in init + [last] ==> Proper(c)
    ensures Adds(RenderedAll(Joined(j, BuildAll(init + [last])), Some(entity)),
                 TextAll(j, init + [last], entity), ValuesAll(init + [last], entity))
  {
    ValuesOfSnoc(init, last, entity);
    if init == [] {
      assert init + [last] == [last];
      assert "" + ("" + Text(last, entity)) == Text(last, entity);
    } else {
      TextOfSnoc(j, init, last, entity);
    }
    assert (init + [last])[..|init|] == init;
    assert BuildAll(init + [last]) == BuildAll(init) + [Build(last)];
    JoinedPiece(j, BuildAll(init), Build(last), entity);
    GroupedLeft(TextAll(j, init, entity), if init == [] then "" else Keyword(j), Text(last, entity));
    GroupedLeft(ValuesAll(init, entity), [], Values(last, entity));
  }

  lemma {:induction false} GroupedLeft<T>(a: seq<T>, b: seq<T>, c: seq<T>)
    ensures a + b + c == a + (b + c)
    ensures [] + c == c
  {
  }

  /** One more operand: the values grow at the end. */
  lemma {:induction false} ValuesOfSnoc(cs: seq<Cond>, c: Cond, entity: Entity)
    ensures ValuesAll(cs + [c], entity) == ValuesAll(cs, entity) + Values(c, entity)
  {
    if cs == [] {
      assert cs + [c] == [c];
      assert Values(c, entity) + [] == Values(c, entity) == [] + Values(c, entity);
    } else {
      assert (cs + [c])[1..] == cs[1..] + [c];
      ValuesOfSnoc(cs[1..], c, entity);
      GroupedLeft(Values(cs[0], entity), ValuesAll(cs[1..], entity), Values(c, entity));
    }
  }

  /** One more operand: the text grows at the end. */
  lemma {:induction false} TextOfSnoc(j: Junction, cs: seq<Cond>, c: Cond, entity: Entity)
    requires Proper(c) && cs != [] && forall d :: d in cs ==> Proper(d)
    ensures forall d :: d in cs + [c] ==> Proper(d)
    ensures TextAll(j, cs + [c], entity) == TextAll(j, cs, entity) + (Keyword(j) + Text(c, entity))
  {
    if |cs| == 1 {
      assert (cs + [c])[1..] == [c];
    } else {
      assert (cs + [c])[1..] == cs[1..] + [c];
      assert (cs + [c])[0] == cs[0];
      TextOfSnoc(j, cs[1..], c, entity);
      GroupedRight(Text(cs[0], entity), Keyword(j), TextAll(j, cs[1..], entity), Keyword(j) + Text(c, entity));
    }
  }

  lemma {:induction false} GroupedRight(a: string, b: string, c: string, d: string)
    ensures a + (b + (c + d)) == a + (b + c) + d
  {
  }

  lemma {:induction false} JoinedPiece(j: Junction, inside: seq<Expression>, exp: Expression, entity: Entity)
    ensures RenderedAll(Joined(j, inside + [exp]), Some(entity))
         == RenderedAll(Joined(j, inside), Some(entity))
              .Then(Piece(if inside == [] then "" else Keyword(j), [], None))
              .Then(Rendered(exp, Some(entity)))
  {
    if inside == [] {
      assert inside + [exp] == [exp];
      SinglePiece(exp, entity);
      ThenAssociates(Rendered(exp, Some(entity)), NOTHING, NOTHING);
    } else {
      var before := Joined(j, inside);
      assert (inside + [exp])[..|inside|] == inside;
      var all := before + [Exp(Keyword(j), []), exp];
      assert all[..|all| - 1] == before + [Exp(Keyword(j), [])];
      assert (before + [Exp(Keyword(j), [])])[..|before|] == before;
      RawPiece(Keyword(j), [], entity);
    }
  }

  lemma {:induction false} RenderedSum(xs: seq<Expression>, ys: seq<Expression>, entity: Entity)
    ensures RenderedAll(xs + ys, Some(entity)) == RenderedAll(xs, Some(entity)).Then(RenderedAll(ys, Some(entity)))
  {
    var before := RenderedAll(xs, Some(entity));
    ThenAssociates(before, before, before);
    if ys == [] {
      assert xs + ys == xs;
    } else {
      var init, last := ys[..|ys| - 1], ys[|ys| - 1];
      assert (xs + ys)[..|xs + ys| - 1] == xs + init;
      RenderedSum(xs, init, entity);
      ThenAssociates(before, RenderedAll(init, Some(entity)), Rendered(last, Some(entity)));
    }
  }

  /** Every condition, also one with unresolved fields, is in place wherever it is used in a statement. */
  lemma {:induction false} BuiltInPlace(c: Cond)
    requires Proper(c)
    ensures InPlace(Build(c))
    decreases c, 1
  {
    match c {
      case Compare(pointer, op, v) =>
        ComparisonInPlace(op, v);
        FieldInPlaceIff(pointer, [Comparison(op, v)]);
      case Among(pointer, vs) =>
        InInPlace(vs);
        FieldInPlaceIff(pointer, [IN(vs)]);
      case Nested(j, cs) =>
        BuiltAllInPlace(cs);
        JunctInPlace(j, BuildAll(cs));
    }
  }

  lemma {:induction false} BuiltAllInPlace(cs: seq<Cond>)
    requires forall c :: c in cs ==> Proper(c)
    ensures forall e :: e in BuildAll(cs) ==> InPlace(e)
    decreases cs, 0
  {
    if cs != [] {
      BuiltAllInPlace(cs[..|cs| - 1]);
      BuiltInPlace(cs[|cs| - 1]);
    }
  }
}
