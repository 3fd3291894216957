/**
 The meaning of a rendered condition: what its text is read back as, and with its bindings, taken in order, its
 truth value in every row.
 */
module CqlMeaning {
  import opened Wrappers
  import opened SqlExpression
  import opened CqlVisitor
  import opened CqlGrammar
  import opened CqlCondition

  /** The condition without its values. */
  function Skeleton(c: Cond, entity: Entity): Parsed
    decreases c, 1
  {
    match c
    case Compare(pointer, op, _) => PCompare(Resolve(pointer, Some(entity)).text, op)
    case Among(pointer, vs) => PAmong(Resolve(pointer, Some(entity)).text, |vs|)
    case Nested(j, cs) => PNested(j, Skeletons(cs, entity))
  }

  function Skeletons(cs: seq<Cond>, entity: Entity): (r: seq<Parsed>)
    ensures |r| == |cs|
    decreases cs, 0
  {
    if cs == [] then [] else [Skeleton(cs[0], entity)] + Skeletons(cs[1..], entity)
  }

  /** The dialect spells every operator of the condition as the renderer does. */
  predicate SpokenAll(d: Dialect, c: Cond) {
    match c
    case Compare(_, op, _) => Spoken(d, op)
    case Among(_, _) => true
    case Nested(_, cs) => forall c :: c in cs ==> SpokenAll(d, c)
  }

  /** The dialect can read it. */
  predicate Readable(d: Dialect, c: Cond, entity: Entity) {
    Resolves(c, entity) && SpokenAll(d, c)
  }

  lemma {:induction false} ReadableParts(d: Dialect, cs: seq<Cond>, j: Junction, entity: Entity)
    ensures Readable(d, Nested(j, cs), entity) <==> forall c :: c in cs ==> Readable(d, c, entity)
  {
  }

  // ---------------------------------------------------------------- what can be read

  /** Whatever follows it, a readable condition is read as itself. */
  lemma {:induction false} ReadsPrimary(d: Dialect, c: Cond, entity: Entity, tail: string)
    requires Proper(c) && Named(c, entity) && Readable(d, c, entity)
    ensures ParsePrimary(d, Text(c, entity) + tail) == Some((Skeleton(c, entity), tail))
    decreases c, 1
  {
    match c {
      case Compare(pointer, op, _) => ReadsComparison(d, Resolve(pointer, Some(entity)).text, op, tail);
      case Among(pointer, vs) => ReadsIn(d, Resolve(pointer, Some(entity)).text, |vs|, tail);
      case Nested(j, cs) =>
        EndsAtParenthesis(tail);
        ReadsOperands(d, j, cs, entity, ")" + tail);
        ReadsParentheses(d, TextAll(j, cs, entity), j, Skeletons(cs, entity), tail);
    }
  }

  lemma {:induction false} ReadsOperands(d: Dialect, j: Junction, cs: seq<Cond>, entity: Entity, tail: string)
    requires cs != [] && Ends(tail)
    requires forall c :: c in cs ==> Proper(c) && Named(c, entity) && Readable(d, c, entity)
    ensures ParseOperands(d, j, TextAll(j, cs, entity) + tail) == Some((Skeletons(cs, entity), tail))
    decreases cs, 0
  {
    var first := Text(cs[0], entity);
    if |cs| == 1 {
      ReadsPrimary(d, cs[0], entity, tail);
      ReadsAlone(d, first + tail, Skeleton(cs[0], entity), tail);
      assert Skeletons(cs, entity) == [Skeleton(cs[0], entity)];
    } else {
      var rest := TextAll(j, cs[1..], entity) + tail;
      var after := Keyword(j) + rest;
      assert TextAll(j, cs, entity) + tail == first + after;
      assert ParsePrimary(d, first + after) == Some((Skeleton(cs[0], entity), after)) by {
        ReadsPrimary(d, cs[0], entity, after);
      }
      ReadsFirstOperand(d, j, first + after, Skeleton(cs[0], entity), rest);
      assert ParseOperands(d, j, rest) == Some((Skeletons(cs[1..], entity), tail)) by {
        ReadsOperands(d, j, cs[1..], entity, tail);
      }
      Eats(Keyword(j), rest);
    }
  }

  // ---------------------------------------------------------------- what cannot

  /** Before a keyword, a parenthesis or the end, a condition that is not readable is not read at all. */
  lemma {:induction false} UnreadPrimary(d: Dialect, c: Cond, entity: Entity, tail: string)
    requires Proper(c) && Named(c, entity) && !Readable(d, c, entity) && Calm(tail)
    ensures ParsePrimary(d, Text(c, entity) + tail) == None
    decreases c, 1
  {
    match c {
      case Compare(pointer, op, _) =>
        if Resolvable(pointer, Some(entity)) {
          ReadsComparison(d, Resolve(pointer, Some(entity)).text, op, tail);
        } else {
          assert Text(c, entity) + tail == tail;
          NoOperand(d, tail);
        }
      case Among(pointer, _) =>
        assert Text(c, entity) + tail == tail;
        NoOperand(d, tail);
      case Nested(j, cs) =>
        ReadableParts(d, cs, j, entity);
        UnreadOperands(d, j, cs, entity, ")" + tail);
        NoParentheses(d, TextAll(j, cs, entity), j, tail);
    }
  }

  lemma {:induction false} UnreadOperands(d: Dialect, j: Junction, cs: seq<Cond>, entity: Entity, tail: string)
    requires forall c :: c in cs ==> Proper(c) && Named(c, entity)
    requires exists c :: c in cs && !Readable(d, c, entity)
    requires Calm(tail)
    ensures ParseOperands(d, j, TextAll(j, cs, entity) + tail) == None
    decreases cs, 0
  {
    var first := Text(cs[0], entity);
    if |cs| == 1 {
      assert ParsePrimary(d, first + tail) == None by {
        UnreadPrimary(d, cs[0], entity, tail);
      }
      NothingReads(d, first + tail, j);
    } else {
      var rest := TextAll(j, cs[1..], entity) + tail;
      var after := Keyword(j) + rest;
      assert TextAll(j, cs, entity) + tail == first + after;
      if Readable(d, cs[0], entity) {
        assert ParsePrimary(d, first + after) == Some((Skeleton(cs[0], entity), after)) by {
          ReadsPrimary(d, cs[0], entity, after);
        }
        ReadsFirstOperand(d, j, first + after, Skeleton(cs[0], entity), rest);
        Eats(Keyword(j), rest);
        assert ParseOperands(d, j, rest) == None by {
          assert cs == [cs[0]] + cs[1..];
          UnreadOperands(d, j, cs[1..], entity, tail);
        }
      } else {
        assert ParsePrimary(d, first + after) == None by {
          UnreadPrimary(d, cs[0], entity, after);
        }
        NothingReads(d, first + after, j);
      }
    }
  }

  // ---------------------------------------------------------------- the meaning

  /** The value a row holds in a column. */
  type Row = string -> Value

  /** How the database compares a stored value with a bound one. */
  type Comparator = (Operator, Value, Value) -> bool

  /** What the caller means by the condition. */
  predicate Meaning(c: Cond, entity: Entity, row: Row, holds: Comparator) {
    match c
    case Compare(pointer, op, v) => holds(op, row(Resolve(pointer, Some(entity)).text), v)
    case Among(pointer, vs) => exists v :: v in vs && holds(EQ, row(Resolve(pointer, Some(entity)).text), v)
    case Nested(AND, cs) => forall c :: c in cs ==> Meaning(c, entity, row, holds)
    case Nested(OR, cs) => exists c :: c in cs && Meaning(c, entity, row, holds)
  }

  /** What the database makes of a parsed condition: every placeholder takes the next binding. */
  function Evaluate(p: Parsed, values: seq<Value>, row: Row, holds: Comparator): (bool, seq<Value>)
    decreases p, 1
  {
    match p
    case PCompare(column, op) =>
      if values == [] then (false, []) else (holds(op, row(column), values[0]), values[1..])
    case PAmong(column, marks) =>
      if |values| < marks then (false, [])
      else (exists v :: v in values[..marks] && holds(EQ, row(column), v), values[marks..])
    case PNested(j, operands) => EvaluateAll(j, operands, values, row, holds)
  }

  function EvaluateAll(j: Junction, ps: seq<Parsed>, values: seq<Value>, row: Row, holds: Comparator)
    : (bool, seq<Value>)
    decreases ps, 0
  {
    if ps == [] then (j == AND, values)
    else
      var first := Evaluate(ps[0], values, row, holds);
      var rest := EvaluateAll(j, ps[1..], first.1, row, holds);
      (if j == AND then first.0 && rest.0 else first.0 || rest.0, rest.1)
  }

  lemma {:induction false} EvaluatesToMeaning(c: Cond, entity: Entity, row: Row, holds: Comparator, more: seq<Value>)
    requires Resolves(c, entity)
    ensures Evaluate(Skeleton(c, entity), Values(c, entity) + more, row, holds)
         == (Meaning(c, entity, row, holds), more)
    decreases c, 1
  {
    match c {
      case Compare(_, _, v) => assert ([v] + more)[1..] == more;
      case Among(_, vs) => assert (vs + more)[..|vs|] == vs && (vs + more)[|vs|..] == more;
      case Nested(j, cs) => EvaluatesOperands(j, cs, entity, row, holds, more);
    }
  }

  lemma {:induction false} EvaluatesOperands(
      j: Junction, cs: seq<Cond>, entity: Entity, row: Row, holds: Comparator, more: seq<Value>)
    requires forall c :: c in cs ==> Resolves(c, entity)
    ensures EvaluateAll(j, Skeletons(cs, entity), ValuesAll(cs, entity) + more, row, holds)
         == (Meaning(Nested(j, cs), entity, row, holds), more)
    decreases cs, 0
  {
    if cs == [] {
      assert [] + more == more;
    } else {
      var first, rest := cs[0], cs[1..];
      assert cs == [first] + rest;
      assert ValuesAll(cs, entity) + more == Values(first, entity) + (ValuesAll(rest, entity) + more);
      EvaluatesToMeaning(first, entity, row, holds, ValuesAll(rest, entity) + more);
      EvaluatesOperands(j, rest, entity, row, holds, more);
    }
  }

  lemma {:induction false} NothingFollows()
    ensures Ends("") && Calm("")
  {
    EatsNot(Keyword(AND), "", 0);
    EatsNot(Keyword(OR), "", 0);
  }

  /** The text is a condition of the dialect at all if and only if it is readable, and then it is the one built. */
  lemma {:induction false} TextReadsIff(d: Dialect, c: Cond, entity: Entity)
    requires Proper(c) && Named(c, entity)
    ensures Parse(d, Text(c, entity)) == if Readable(d, c, entity) then Some(Skeleton(c, entity)) else None
  {
    var text := Text(c, entity);
    assert text + "" == text;
    NothingFollows();
    if Readable(d, c, entity) {
      ReadsPrimary(d, c, entity, "");
      ReadsAlone(d, text, Skeleton(c, entity), "");
    } else {
      UnreadPrimary(d, c, entity, "");
      NothingReads(d, text, OR);
    }
  }

  /**
   The main result, for every condition and either dialect.  The rendered text is a condition of the
   dialect if and only if every field has a column and every operator is spelled in the dialect as the
   renderer spells it.  Then it is read as the nested condition that was built, and with the rendered
   bindings it selects a row exactly if the condition means so.
   */
  lemma {:induction false} ConditionMeansItself(d: Dialect, c: Cond, entity: Entity, row: Row, holds: Comparator)
    requires Proper(c) && Named(c, entity)
    ensures var piece := Rendered(Build(c), Some(entity));
      && (Parse(d, piece.text).Some? <==> Resolves(c, entity) && SpokenAll(d, c))
      && (Parse(d, piece.text).Some? ==>
            && Parse(d, piece.text).value == Skeleton(c, entity)
            && Evaluate(Parse(d, piece.text).value, piece.binding, row, holds) == (Meaning(c, entity, row, holds), []))
  {
    RenderedCondition(c, entity);
    TextReadsIff(d, c, entity);
    if Readable(d, c, entity) {
      EvaluatesToMeaning(c, entity, row, holds, []);
      assert Values(c, entity) + [] == Values(c, entity);
    }
  }

  /**
   FieldEQ, the equality of a field with its own pointer: if the pointer is that of a field with a column it
   is read, in either dialect, as the equality of that column, and it selects a row exactly if the column has
   there what the pointer leads to.
   */
  lemma {:induction false} FieldEQMeansEquality(
      d: Dialect, pointer: Pointer, entity: Entity, row: Row, holds: Comparator)
    requires Resolvable(pointer, Some(entity))
    requires IsName(Column(FindField(pointer, entity.fields).value).value)
    ensures var column := Column(FindField(pointer, entity.fields).value).value;
            var piece := Rendered(FieldEQ(pointer), Some(entity));
      && Parse(d, piece.text) == Some(PCompare(column, EQ)) && piece.binding == [pointer] && piece.error == None
      && Evaluate(Parse(d, piece.text).value, piece.binding, row, holds) == (holds(EQ, row(column), pointer), [])
  {
    var c := Compare(pointer, EQ, pointer);
    assert FieldEQ(pointer) == Build(c);
    ConditionMeansItself(d, c, entity, row, holds);
    RenderedCondition(c, entity);
    ErrorFreeIff(FieldEQ(pointer), Some(entity));
    assert AllResolve(Comparison(EQ, pointer), Some(entity));
  }

  /** Nobody else has the spellings of GTE and LTE: with either of them no condition can be read. */
  lemma {:induction false} UsualReadsIff(c: Cond, entity: Entity)
    requires Proper(c) && Named(c, entity) && Resolves(c, entity)
    ensures Parse(Usual, Rendered(Build(c), Some(entity)).text) == Some(Skeleton(c, entity)) <==>
            !Uses(c, GTE) && !Uses(c, LTE)
  {
    RenderedCondition(c, entity);
    TextReadsIff(Usual, c, entity);
    SpokenIffUnused(c);
  }

  /** The operator occurs in the condition. */
  predicate Uses(c: Cond, op: Operator) {
    match c
    case Compare(_, o, _) => o == op
    case Among(_, _) => false
    case Nested(_, cs) => exists c :: c in cs && Uses(c, op)
  }

  lemma {:induction false} SpokenIffUnused(c: Cond)
    ensures SpokenAll(Usual, c) <==> !Uses(c, GTE) && !Uses(c, LTE)
  {
    if c.Nested? {
      forall x | x in c.cs
        ensures SpokenAll(Usual, x) <==> !Uses(x, GTE) && !Uses(x, LTE)
      {
        SpokenIffUnused(x);
      }
    }
  }

  // ---------------------------------------------------------------- bare keywords

  /**
   Operands separated by one bare keyword, without parentheses, can be read exactly if each of them can, and
   then mean the same as the nested form.
   */
  lemma {:induction false} SpareParentheses(d: Dialect, j: Junction, cs: seq<Cond>, entity: Entity)
    requires |cs| >= 2 && forall c :: c in cs ==> Proper(c) && Named(c, entity)
    ensures var piece := RenderedAll(Joined(j, BuildAll(cs)), Some(entity));
      && piece.binding == Values(Nested(j, cs), entity)
      && Parse(d, piece.text) ==
         if forall c :: c in cs ==> Readable(d, c, entity) then Some(Skeleton(Nested(j, cs), entity)) else None
  {
    var text := TextAll(j, cs, entity);
    RenderedOperands(j, cs, entity);
    NothingFollows();
    assert text + "" == text;
    if forall c :: c in cs ==> Readable(d, c, entity) {
      ReadsOperands(d, j, cs, entity, "");
      ReadsChain(d, text, j, Skeletons(cs, entity), "");
    } else {
      UnreadOperands(d, j, cs, entity, "");
      NoChain(d, text, j);
    }
  }
}
