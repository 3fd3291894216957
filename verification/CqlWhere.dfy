/**
 The WHERE clause of CQL, which is relations joined by AND, without OR and without parentheses, and which
 of the conditions that can be built it can read.
 */
module CqlWhere {
  import opened Wrappers
  import opened SqlExpression
  import opened CqlVisitor
  import opened CqlGrammar
  import opened CqlCondition
  import opened CqlMeaning
  import opened CqlMixture

  function ParseRelations(s: string): (r: Option<(seq<Parsed>, string)>)
    ensures r.Some? ==> |r.value.1| < |s| && r.value.0 != []
    decreases |s|
  {
    var first := ParseAtom(Usual, s);
    if first == None then None
    else if Eat(Keyword(AND), first.value.1) == None then Some(([first.value.0], first.value.1))
    else
      var more := ParseRelations(Eat(Keyword(AND), first.value.1).value);
      if more == None then None else Some(([first.value.0] + more.value.0, more.value.1))
  }

  /** A whole clause, as the relations that all have to hold. */
  function ParseWhere(s: string): Option<seq<Parsed>> {
    var r := ParseRelations(s);
    if r.Some? && r.value.1 == "" then Some(r.value.0) else None
  }

  /** The condition is one relation of CQL. */
  predicate IsRelation(c: Cond, entity: Entity) {
    !c.Nested? && Readable(Usual, c, entity)
  }

  predicate AllRelations(rest: seq<Link>, entity: Entity) {
    forall l :: l in rest ==> l.j == AND && IsRelation(l.c, entity)
  }

  lemma {:induction false} ReadsRelation(c: Cond, entity: Entity, tail: string)
    requires Proper(c) && Named(c, entity) && Calm(tail)
    ensures ParseAtom(Usual, Text(c, entity) + tail) ==
            if IsRelation(c, entity) then Some((Skeleton(c, entity), tail)) else None
  {
    var s := Text(c, entity) + tail;
    if c.Nested? {
      assert s[0] == '(';
      assert NameLength(s) == 0;
    } else if Readable(Usual, c, entity) {
      ReadsPrimary(Usual, c, entity, tail);
      NoParenthesisFirst(c, entity, tail);
    } else {
      UnreadPrimary(Usual, c, entity, tail);
      NoParenthesisFirst(c, entity, tail);
    }
  }

  lemma {:induction false} NoParenthesisFirst(c: Cond, entity: Entity, tail: string)
    requires Proper(c) && Named(c, entity) && !c.Nested? && Calm(tail)
    ensures Eat("(", Text(c, entity) + tail) == None
  {
    var s := Text(c, entity) + tail;
    if Text(c, entity) == "" {
      assert s == tail;
    } else {
      assert s[0] == Resolve(c.pointer, Some(entity)).text[0];
    }
    EatsNot("(", s, 0);
  }

  /** Built conditions: CQL reads exactly the single relations, so no AND and no OR of anything. */
  lemma {:induction false} CqlReadsIff(c: Cond, entity: Entity)
    requires Proper(c) && Named(c, entity)
    ensures ParseWhere(Rendered(Build(c), Some(entity)).text) ==
            if IsRelation(c, entity) then Some([Skeleton(c, entity)]) else None
  {
    RenderedCondition(c, entity);
    CqlTextReadsIff(c, entity);
  }

  lemma {:induction false} CqlTextReadsIff(c: Cond, entity: Entity)
    requires Proper(c) && Named(c, entity)
    ensures ParseWhere(Text(c, entity)) == if IsRelation(c, entity) then Some([Skeleton(c, entity)]) else None
  {
    assert Text(c, entity) + "" == Text(c, entity);
    NothingFollows();
    ReadsRelation(c, entity, "");
  }

  lemma {:induction false} ReadsRelations(c: Cond, rest: seq<Link>, entity: Entity)
    requires Proper(c) && Named(c, entity) && AllProper(rest) && AllNamed(rest, entity)
    ensures ParseWhere(MixText(c, rest, entity)) ==
            if IsRelation(c, entity) && AllRelations(rest, entity) then Some(Skeletons(Run(c, rest), entity)) else None
    decreases |rest|
  {
    var s, after := MixText(c, rest, entity), LinkText(rest, entity);
    LinksAreCalm(rest, entity);
    ReadsRelation(c, entity, after);
    if !IsRelation(c, entity) {
      assert ParseRelations(s) == None;
    } else if rest == [] || rest[0].j == OR {
      EndsRun(rest, entity);
      LastRelation(s, Skeleton(c, entity), after);
      OneSkeleton(c, entity);
      assert rest != [] ==> rest[0] in rest;
    } else {
      OneMoreRelation(s, Skeleton(c, entity), MixText(rest[0].c, rest[1..], entity));
      OneMoreLinkRelates(rest, entity);
      ReadsRelations(rest[0].c, rest[1..], entity);
      assert ([c] + Run(rest[0].c, rest[1..]))[1..] == Run(rest[0].c, rest[1..]);
    }
  }

  lemma {:induction false} LastRelation(s: string, p: Parsed, after: string)
    requires ParseAtom(Usual, s) == Some((p, after)) && Eat(Keyword(AND), after) == None
    ensures ParseWhere(s) == if after == "" then Some([p]) else None
  {
  }

  lemma {:induction false} OneMoreRelation(s: string, p: Parsed, more: string)
    requires ParseAtom(Usual, s) == Some((p, Keyword(AND) + more))
    ensures ParseWhere(s) == if ParseWhere(more).Some? then Some([p] + ParseWhere(more).value) else None
  {
    Eats(Keyword(AND), more);
  }

  lemma {:induction false} OneMoreLinkRelates(rest: seq<Link>, entity: Entity)
    requires rest != [] && rest[0].j == AND
    ensures AllRelations(rest, entity) <==> IsRelation(rest[0].c, entity) && AllRelations(rest[1..], entity)
    ensures AllProper(rest) ==> Proper(rest[0].c) && AllProper(rest[1..])
    ensures AllNamed(rest, entity) ==> Named(rest[0].c, entity) && AllNamed(rest[1..], entity)
  {
    assert rest == [rest[0]] + rest[1..];
  }

  lemma {:induction false} RelationsAreOneRun(c: Cond, rest: seq<Link>, entity: Entity)
    requires IsRelation(c, entity) && AllRelations(rest, entity)
    ensures AfterRun(rest) == [] && forall x :: x in Run(c, rest) ==> Resolves(x, entity)
    decreases |rest|
  {
    if rest != [] {
      assert rest[0] in rest && forall l :: l in rest[1..] ==> l in rest;
      RelationsAreOneRun(rest[0].c, rest[1..], entity);
    }
  }

  /**
   Lists with bare keywords: CQL reads exactly those of relations with AND between them, and a row is
   selected, with the rendered bindings, exactly if all of the relations hold.
   */
  lemma {:induction false} CqlListReadsIff(c: Cond, rest: seq<Link>, entity: Entity, row: Row, holds: Comparator)
    requires Proper(c) && Named(c, entity) && AllProper(rest) && AllNamed(rest, entity)
    ensures var piece, relations := RenderedAll(Listed(c, rest), Some(entity)), Skeletons(Run(c, rest), entity);
      if IsRelation(c, entity) && AllRelations(rest, entity) then
        && ParseWhere(piece.text) == Some(relations)
        && EvaluateAll(AND, relations, piece.binding, row, holds) ==
           (forall x :: x in Run(c, rest) ==> Meaning(x, entity, row, holds), [])
      else ParseWhere(piece.text) == None
  {
    ListedPiece(c, rest, entity);
    ReadsRelations(c, rest, entity);
    if IsRelation(c, entity) && AllRelations(rest, entity) {
      RelationsAreOneRun(c, rest, entity);
      ValuesOfRun(c, rest, entity);
      EvaluatesOperands(AND, Run(c, rest), entity, row, holds, []);
    }
  }
}
