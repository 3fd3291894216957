/**
 Why the k-th placeholder of a rendered statement is bound by the k-th binding. Fill is what a
 database driver does with a text and a list of bindings; Template says, part by part, which value
 every placeholder was written for. They agree on every expression that is InPlace.
 */
module CqlAlignment {
  import opened Wrappers
  import opened SqlExpression
  import opened CqlVisitor

  datatype Symbol = Ch(c: char) | Hole(v: Value)

  /** The placeholders replaced, left to right, by the bindings; nothing when the counts differ. */
  function Fill(text: string, binding: seq<Value>): Option<seq<Symbol>> {
    if text == "" then (if binding == [] then Some([]) else None)
    else if text[0] == '?' then
      if binding == [] then None
      else
        var rest := Fill(text[1..], binding[1..]);
        if rest == None then None else Some([Hole(binding[0])] + rest.value)
    else
      var rest := Fill(text[1..], binding);
      if rest == None then None else Some([Ch(text[0])] + rest.value)
  }

  /** The number of placeholders. */
  function Marks(text: string): nat {
    if text == "" then 0 else (if text[0] == '?' then 1 else 0) + Marks(text[1..])
  }

  function Symbols(text: string): seq<Symbol> {
    seq(|text|, i requires 0 <= i < |text| => Ch(text[i]))
  }

  lemma {:induction false} PlainHasNoMarks(text: string)
    requires '?' !in text
    ensures Marks(text) == 0
  {
    if text != "" {
      PlainHasNoMarks(text[1..]);
    }
  }

  lemma {:induction false} MarksOfSum(a: string, b: string)
    ensures Marks(a + b) == Marks(a) + Marks(b)
  {
    if a == "" {
      assert a + b == b;
    } else {
      assert (a + b)[1..] == a[1..] + b;
      MarksOfSum(a[1..], b);
    }
  }

  /** A statement can be filled exactly if there are as many bindings as placeholders. */
  lemma {:induction false} FillsIffCountsAgree(text: string, binding: seq<Value>)
    ensures Fill(text, binding).Some? <==> Marks(text) == |binding|
  {
    if text == "" {
    } else if text[0] == '?' {
      if binding != [] {
        FillsIffCountsAgree(text[1..], binding[1..]);
      }
    } else {
      FillsIffCountsAgree(text[1..], binding);
    }
  }

  /** Filling keeps the text and puts the k-th binding where the k-th placeholder stood. */
  lemma {:induction false} FillIsPositional(text: string, binding: seq<Value>, i: nat)
    requires Fill(text, binding).Some? && i < |text|
    ensures |Fill(text, binding).value| == |text|
    ensures text[i] != '?' ==> Fill(text, binding).value[i] == Ch(text[i])
    ensures text[i] == '?' ==>
              Marks(text[..i]) < |binding| && Fill(text, binding).value[i] == Hole(binding[Marks(text[..i])])
    decreases text
  {
    var rest := if text[0] == '?' then binding[1..] else binding;
    FillLength(text[1..], rest);
    if i > 0 {
      assert text[..i][1..] == text[1..][..i - 1];
      FillIsPositional(text[1..], rest, i - 1);
    }
  }

  lemma {:induction false} FillLength(text: string, binding: seq<Value>)
    requires Fill(text, binding).Some?
    ensures |Fill(text, binding).value| == |text|
  {
    if text != "" {
      FillLength(text[1..], if text[0] == '?' then binding[1..] else binding);
    }
  }

  /** Two statements that fill on their own fill side by side. */
  lemma {:induction false} FillOfSum(a: string, x: seq<Value>, b: string, y: seq<Value>)
    requires Fill(a, x).Some? && Fill(b, y).Some?
    ensures Fill(a + b, x + y) == Some(Fill(a, x).value + Fill(b, y).value)
  {
    if a == "" {
      assert a + b == b && x + y == y;
      assert Fill(a, x).value + Fill(b, y).value == Fill(b, y).value;
    } else {
      assert (a + b)[1..] == a[1..] + b;
      if a[0] == '?' {
        assert (x + y)[1..] == x[1..] + y;
        FillOfSum(a[1..], x[1..], b, y);
        assert [Hole(x[0])] + (Fill(a[1..], x[1..]).value + Fill(b, y).value) == Fill(a, x).value + Fill(b, y).value;
      } else {
        FillOfSum(a[1..], x, b, y);
        assert [Ch(a[0])] + (Fill(a[1..], x).value + Fill(b, y).value) == Fill(a, x).value + Fill(b, y).value;
      }
    }
  }

  /** A text without placeholders is its own filling. */
  lemma {:induction false} FillPlain(text: string)
    requires Marks(text) == 0
    ensures Fill(text, []) == Some(Symbols(text))
  {
    if text != "" {
      FillPlain(text[1..]);
      assert Symbols(text) == [Ch(text[0])] + Symbols(text[1..]);
    } else {
      assert Symbols(text) == [];
    }
  }

  // ---------------------------------------------------------------- which value a placeholder is for

  /** The table and column names of the entity hold no placeholder. */
  predicate PlainNames(entity: Option<Entity>) {
    entity.Some? ==>
      Marks(entity.value.table) == 0 &&
      forall f :: f in entity.value.fields && Column(f).Some? ==> Marks(Column(f).value) == 0
  }

  /**
   The placeholders an expression writes itself are as many as its own bindings, and they come after
   those of the expressions inside it, because its bindings do.
   */
  predicate InPlace(exp: Expression) {
    match exp
    case PrefixedExp(prefix, after, suffix, _) =>
      Marks(prefix) + Marks(suffix) == |OwnBinding(exp)| &&
      (Marks(prefix) == 0 || after == []) &&
      forall e :: e in after ==> InPlace(e)
    case FieldExpression(_, afterField) => afterField.Some? ==> InPlace(afterField.value)
  }

  /** The statement with every placeholder replaced by the value it was written for. */
  function Template(exp: Expression, entity: Option<Entity>): seq<Symbol>
    requires InPlace(exp)
    decreases exp, 1
  {
    match exp
    case PrefixedExp(prefix, after, suffix, _) =>
      FillsIffCountsAgree(prefix, OwnBinding(exp)[..Marks(prefix)]);
      FillsIffCountsAgree(suffix, OwnBinding(exp)[Marks(prefix)..]);
      (if prefix == "FROM" then Symbols(Start(exp, entity)) else Fill(prefix, OwnBinding(exp)[..Marks(prefix)]).value) +
      TemplateAll(after, entity) +
      Fill(suffix, OwnBinding(exp)[Marks(prefix)..]).value
    case FieldExpression(pointer, afterField) =>
      var column := Resolve(pointer, entity);
      Symbols(column.text) +
      if column.error.Some? || afterField == None then [] else Template(afterField.value, entity)
  }

  function TemplateAll(exps: seq<Expression>, entity: Option<Entity>): seq<Symbol>
    requires forall e :: e in exps ==> InPlace(e)
    decreases exps, 0
  {
    if exps == [] then []
    else TemplateAll(exps[..|exps| - 1], entity) + Template(exps[|exps| - 1], entity)
  }

  /**
   The main result: the text and the bindings the visitor collects fill to the template, so every
   placeholder gets the value it was written for, also when fields cannot be resolved.
   */
  lemma {:induction false} PlaceholdersLineUp(exp: Expression, entity: Option<Entity>)
    requires InPlace(exp) && PlainNames(entity)
    ensures Fill(Rendered(exp, entity).text, Rendered(exp, entity).binding) == Some(Template(exp, entity))
    decreases exp, 1
  {
    match exp {
      case PrefixedExp(_, after, _, _) =>
        PlaceholdersLineUpAll(after, entity);
        PrefixedLinesUp(exp, entity);
      case FieldExpression(pointer, afterField) =>
        ResolvedIsPlain(pointer, entity);
        var column := Resolve(pointer, entity);
        FillPlain(column.text);
        if column.error == None && afterField.Some? {
          PlaceholdersLineUp(afterField.value, entity);
          var inner := Rendered(afterField.value, entity);
          FillOfSum(column.text, [], inner.text, inner.binding);
          assert [] + inner.binding == inner.binding;
        } else {
          assert Template(exp, entity) == Symbols(column.text);
        }
    }
  }

  lemma {:induction false} PlaceholdersLineUpAll(exps: seq<Expression>, entity: Option<Entity>)
    requires PlainNames(entity)
    requires forall e :: e in exps ==> InPlace(e)
    ensures Fill(RenderedAll(exps, entity).text, RenderedAll(exps, entity).binding) == Some(TemplateAll(exps, entity))
    decreases exps, 0
  {
    if exps != [] {
      var init, last := exps[..|exps| - 1], exps[|exps| - 1];
      PlaceholdersLineUpAll(init, entity);
      PlaceholdersLineUp(last, entity);
      FillOfSum(RenderedAll(init, entity).text, RenderedAll(init, entity).binding,
                Rendered(last, entity).text, Rendered(last, entity).binding);
    }
  }

  lemma {:induction false} PrefixedLinesUp(exp: Expression, entity: Option<Entity>)
    requires exp.PrefixedExp? && InPlace(exp) && PlainNames(entity)
    requires Fill(RenderedAll(exp.after, entity).text, RenderedAll(exp.after, entity).binding)
          == Some(TemplateAll(exp.after, entity))
    ensures Fill(Rendered(exp, entity).text, Rendered(exp, entity).binding) == Some(Template(exp, entity))
  {
    var own, n := OwnBinding(exp), Marks(exp.prefix);
    var before, inner, end := own[..n], RenderedAll(exp.after, entity), own[n..];
    var start := Start(exp, entity);
    StartFills(exp, entity);
    FillsIffCountsAgree(exp.suffix, end);
    FillOfSum(start, before, inner.text, inner.binding);
    FillOfSum(start + inner.text, before + inner.binding, exp.suffix, end);
    BindingsInOrder(exp, entity, n);
  }

  lemma {:induction false} StartFills(exp: Expression, entity: Option<Entity>)
    requires exp.PrefixedExp? && InPlace(exp) && PlainNames(entity)
    ensures Fill(exp.prefix, OwnBinding(exp)[..Marks(exp.prefix)]).Some?
    ensures Fill(Start(exp, entity), OwnBinding(exp)[..Marks(exp.prefix)])
         == Some(if exp.prefix == "FROM" then Symbols(Start(exp, entity))
                 else Fill(exp.prefix, OwnBinding(exp)[..Marks(exp.prefix)]).value)
  {
    FillsIffCountsAgree(exp.prefix, OwnBinding(exp)[..Marks(exp.prefix)]);
    if exp.prefix == "FROM" {
      var table := if entity.Some? then entity.value.table else "";
      PlainHasNoMarks(" FROM ");
      PlainHasNoMarks("FROM");
      MarksOfSum(" FROM ", table);
      assert OwnBinding(exp)[..Marks(exp.prefix)] == [];
      FillPlain(Start(exp, entity));
    }
  }

  lemma {:induction false} BindingsInOrder(exp: Expression, entity: Option<Entity>, n: nat)
    requires exp.PrefixedExp? && InPlace(exp) && n == Marks(exp.prefix)
    ensures Rendered(exp, entity).binding
         == OwnBinding(exp)[..n] + RenderedAll(exp.after, entity).binding + OwnBinding(exp)[n..]
    ensures Rendered(exp, entity).text
         == Start(exp, entity) + RenderedAll(exp.after, entity).text + exp.suffix
  {
    var own := OwnBinding(exp);
    assert own == own[..n] + own[n..];
    assert [] + RenderedAll(exp.after, entity).binding == RenderedAll(exp.after, entity).binding;
    if n > 0 {
      assert RenderedAll(exp.after, entity) == NOTHING;
    }
  }

  lemma {:induction false} ResolvedIsPlain(pointer: Pointer, entity: Option<Entity>)
    requires PlainNames(entity)
    ensures Marks(Resolve(pointer, entity).text) == 0
    ensures Resolve(pointer, entity).binding == []
  {
  }

  // ---------------------------------------------------------------- which expressions are in place

  /** A raw statement is in place exactly if it brings one binding for each of its placeholders. */
  lemma {:induction false} RawInPlaceIff(statement: string, binding: seq<Value>)
    requires statement != "FROM"
    ensures InPlace(Exp(statement, binding)) <==> Marks(statement) == |binding|
  {
  }

  lemma {:induction false} ComparisonInPlace(op: Operator, v: Value)
    ensures InPlace(Comparison(op, v))
  {
    assert Marks("?") == 1 by {
      assert "?"[1..] == "";
    }
    assert InPlace(Exp("?", [v]));
    PlainHasNoMarks(Spelling(op));
    PlainHasNoMarks("");
  }

  lemma {:induction false} MarksOfRefs(n: nat)
    ensures Marks(Refs(n)) == n
  {
    if n > 0 {
      MarksOfRefs(n - 1);
      MarksOfSum(Refs(n - 1), ",?");
      assert ",?"[1..][1..] == "";
    }
  }

  lemma {:induction false} InInPlace(binding: seq<Value>)
    requires binding != []
    ensures InPlace(IN(binding))
  {
    var refs := Refs(|binding|);
    MarksOfRefs(|binding|);
    RefsStartWithComma(|binding|);
    MarksOfSum(refs[1..], ")");
    PlainHasNoMarks(")");
    PlainHasNoMarks(" IN(");
  }

  lemma {:induction false} RefsStartWithComma(n: nat)
    requires n > 0
    ensures Refs(n)[0] == ','
  {
    if n > 1 {
      RefsStartWithComma(n - 1);
    }
  }

  /** AND and OR keep their operands in place, at every number of operands. */
  lemma {:induction false} JunctInPlace(j: Junction, inside: seq<Expression>)
    requires forall e :: e in inside ==> InPlace(e)
    ensures InPlace(Junct(j, inside))
  {
    PlainHasNoMarks(Keyword(j));
    PlainHasNoMarks("");
    JoinedInPlace(j, inside);
    ParenthesisInPlaceIff(Joined(j, inside));
  }

  lemma {:induction false} JoinedInPlace(j: Junction, inside: seq<Expression>)
    requires forall e :: e in inside ==> InPlace(e)
    ensures forall e :: e in Joined(j, inside) ==> InPlace(e)
  {
    if |inside| > 1 {
      PlainHasNoMarks(Keyword(j));
      PlainHasNoMarks("");
      JoinedInPlace(j, inside[..|inside| - 1]);
    }
  }

  lemma {:induction false} ParenthesisInPlaceIff(inside: seq<Expression>)
    ensures InPlace(Parenthesis(inside)) <==> forall e :: e in inside ==> InPlace(e)
  {
    PlainHasNoMarks("(");
    PlainHasNoMarks(")");
  }

  lemma {:induction false} FieldInPlaceIff(pointer: Pointer, rightOperand: seq<Expression>)
    ensures InPlace(Field(pointer, rightOperand)) <==> (rightOperand == [] || InPlace(rightOperand[0]))
    ensures InPlace(FieldEQ(pointer))
  {
    ComparisonInPlace(EQ, pointer);
  }

  lemma {:induction false} FromInPlaceIff(entity: Value, after: Expression)
    ensures InPlace(FROM(entity, after)) <==> InPlace(after)
  {
    PlainHasNoMarks("FROM");
    PlainHasNoMarks("");
    assert after in FROM(entity, after).after;
  }

  lemma {:induction false} DeleteInPlaceIff(after: Expression)
    ensures InPlace(DELETE(after)) <==> InPlace(after)
  {
    PlainHasNoMarks("DELETE");
    PlainHasNoMarks("");
    assert after in DELETE(after).after;
  }

  lemma {:induction false} WhereInPlaceIff(conditions: seq<Expression>)
    ensures InPlace(WHERE(conditions)) <==> forall e :: e in conditions ==> InPlace(e)
  {
    PlainHasNoMarks(" WHERE ");
    PlainHasNoMarks("");
  }

  /**
   SELECT writes no placeholder of its own, so bindings given to it can never be placed: the driver
   accepts the statement exactly if there are none.
   */
  lemma {:induction false} SelectFillsIffNoBinding(
      entity: Value, after: Expression, binding: seq<Value>, struct: Option<Entity>)
    requires InPlace(after) && PlainNames(struct)
    ensures var piece := Rendered(SELECT(entity, after, binding), struct);
            Fill(piece.text, piece.binding).Some? <==> binding == []
  {
    var from := FROM(entity, after);
    var inner := Rendered(from, struct);
    FromInPlaceIff(entity, after);
    PlaceholdersLineUp(from, struct);
    FillsIffCountsAgree(inner.text, inner.binding);
    SelectPiece(entity, after, binding, struct);
    PlainHasNoMarks("SELECT");
    MarksOfSum("SELECT", inner.text);
    FillsIffCountsAgree("SELECT" + inner.text, inner.binding + binding);
  }

  lemma {:induction false} SelectPiece(entity: Value, after: Expression, binding: seq<Value>, struct: Option<Entity>)
    ensures var piece, inner := Rendered(SELECT(entity, after, binding), struct), Rendered(FROM(entity, after), struct);
            piece.text == "SELECT" + inner.text && piece.binding == inner.binding + binding
  {
    var from := FROM(entity, after);
    var inner := Rendered(from, struct);
    var select := SELECT(entity, after, binding);
    assert [from][..0] == [];
    assert RenderedAll([from], struct) == NOTHING.Then(inner);
    assert Start(select, struct) == "SELECT" && OwnBinding(select) == binding;
    ThenAssociates(inner, inner, inner);
    assert [] + inner.binding == inner.binding;
  }
}
