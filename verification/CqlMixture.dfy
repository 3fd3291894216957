/**
 Conditions listed with bare AND and OR between them, without parentheses.  Precedence decides what they
 mean: an OR of the longest runs joined by AND.
 */
module CqlMixture {
  import opened Wrappers
  import opened SqlExpression
  import opened CqlVisitor
  import opened CqlGrammar
  import opened CqlCondition
  import opened CqlMeaning

  /** A condition with the bare keyword before it. */
  datatype Link = Link(j: Junction, c: Cond)

  predicate AllProper(rest: seq<Link>) {
    forall l :: l in rest ==> Proper(l.c)
  }

  /** The expressions as they are listed, for instance in WHERE. */
  function Listed(c: Cond, rest: seq<Link>): seq<Expression>
    requires Proper(c) && AllProper(rest)
    decreases |rest|
  {
    if rest == [] then [Build(c)]
    else [Build(c), Junct(rest[0].j, [])] + Listed(rest[0].c, rest[1..])
  }

  function MixText(c: Cond, rest: seq<Link>, entity: Entity): string
    requires Proper(c) && AllProper(rest)
    decreases |rest|, 1
  {
    Text(c, entity) + LinkText(rest, entity)
  }

  function LinkText(rest: seq<Link>, entity: Entity): string
    requires AllProper(rest)
    decreases |rest|, 0
  {
    if rest == [] then "" else Keyword(rest[0].j) + MixText(rest[0].c, rest[1..], entity)
  }

  function MixValues(c: Cond, rest: seq<Link>, entity: Entity): seq<Value>
    decreases |rest|
  {
    Values(c, entity) + if rest == [] then [] else MixValues(rest[0].c, rest[1..], entity)
  }

  // ---------------------------------------------------------------- the grouping by precedence

  /** The conditions up to the first OR. */
  function Run(c: Cond, rest: seq<Link>): (r: seq<Cond>)
    ensures r != []
    decreases |rest|
  {
    if rest == [] || rest[0].j == OR then [c] else [c] + Run(rest[0].c, rest[1..])
  }

  /** What follows them: nothing, or an OR. */
  function AfterRun(rest: seq<Link>): (r: seq<Link>)
    ensures |r| <= |rest| && (r != [] ==> r[0].j == OR)
    ensures forall l :: l in r ==> l in rest
  {
    if rest == [] || rest[0].j == OR then rest else AfterRun(rest[1..])
  }

  function Group(j: Junction, cs: seq<Cond>): Cond
    requires cs != []
  {
    if |cs| == 1 then cs[0] else Nested(j, cs)
  }

  /** The runs between the ORs, each as one condition. */
  function Groups(c: Cond, rest: seq<Link>): (r: seq<Cond>)
    ensures r != []
    decreases |rest|
  {
    var more := AfterRun(rest);
    [Group(AND, Run(c, rest))] + if more == [] then [] else Groups(more[0].c, more[1..])
  }

  /** What the list means: an OR of its runs. */
  function Grouped(c: Cond, rest: seq<Link>): Cond {
    Group(OR, Groups(c, rest))
  }

  // ---------------------------------------------------------------- it is read that way

  /** The columns listed, if they exist, have plain names. */
  predicate AllNamed(rest: seq<Link>, entity: Entity) {
    forall l :: l in rest ==> Named(l.c, entity)
  }

  /** Everything listed can be read. */
  predicate AllReadable(d: Dialect, rest: seq<Link>, entity: Entity) {
    forall l :: l in rest ==> Readable(d, l.c, entity)
  }

  /** Every condition of the first run can be read. */
  predicate RunReadable(d: Dialect, c: Cond, rest: seq<Link>, entity: Entity)
    decreases |rest|
  {
    Readable(d, c, entity) && (rest == [] || rest[0].j == OR || RunReadable(d, rest[0].c, rest[1..], entity))
  }

  function SkeletonOf(j: Junction, ps: seq<Parsed>): Parsed
    requires ps != []
  {
    if |ps| == 1 then ps[0] else PNested(j, ps)
  }

  lemma {:induction false} SkeletonOfGroup(j: Junction, cs: seq<Cond>, entity: Entity)
    requires cs != []
    ensures Skeletons(cs, entity) != []
    ensures Skeleton(Group(j, cs), entity) == SkeletonOf(j, Skeletons(cs, entity))
  {
  }

  /** After an operand of AND comes either another AND, or something that ends the run. */
  lemma {:induction false} EndsRun(rest: seq<Link>, entity: Entity)
    requires AllProper(rest) && (rest != [] ==> rest[0].j == OR)
    ensures Eat(Keyword(AND), LinkText(rest, entity)) == None
  {
    if rest == [] {
      EatsNot(Keyword(AND), "", 0);
    } else {
      EatsNot(Keyword(AND), LinkText(rest, entity), 1);
    }
  }

  lemma {:induction false} OneMoreOperandRead(d: Dialect, j: Junction, s: string, p: Parsed, others: string)
    requires ParseOperand(d, j, s) == Some((p, Keyword(j) + others)) && ParseOperands(d, j, others).Some?
    ensures ParseOperands(d, j, s)
         == Some(([p] + ParseOperands(d, j, others).value.0, ParseOperands(d, j, others).value.1))
  {
    Eats(Keyword(j), others);
  }

  lemma {:induction false} ReadsRun(d: Dialect, c: Cond, rest: seq<Link>, entity: Entity)
    requires Proper(c) && Named(c, entity) && AllProper(rest) && AllNamed(rest, entity)
    requires RunReadable(d, c, rest, entity)
    ensures ParseOperands(d, AND, MixText(c, rest, entity))
         == Some((Skeletons(Run(c, rest), entity), LinkText(AfterRun(rest), entity)))
    decreases |rest|
  {
    var s, after := MixText(c, rest, entity), LinkText(rest, entity);
    assert ParseOperand(d, AND, s) == Some((Skeleton(c, entity), after)) by {
      ReadsPrimary(d, c, entity, after);
    }
    if rest == [] || rest[0].j == OR {
      EndsRun(rest, entity);
      OneSkeleton(c, entity);
    } else {
      var run, more := Run(rest[0].c, rest[1..]), MixText(rest[0].c, rest[1..], entity);
      assert rest[0] in rest && forall l :: l in rest[1..] ==> l in rest;
      assert ParseOperands(d, AND, more) == Some((Skeletons(run, entity), LinkText(AfterRun(rest[1..]), entity))) by {
        ReadsRun(d, rest[0].c, rest[1..], entity);
      }
      OneMoreOperandRead(d, AND, s, Skeleton(c, entity), more);
      assert ([c] + Run(rest[0].c, rest[1..]))[1..] == Run(rest[0].c, rest[1..]);
    }
  }

  lemma {:induction false} OneSkeleton(c: Cond, entity: Entity)
    ensures Skeletons([c], entity) == [Skeleton(c, entity)]
  {
    assert [c][1..] == [];
  }

  /** A run is read as one operand of OR. */
  lemma {:induction false} ReadsGroup(d: Dialect, c: Cond, rest: seq<Link>, entity: Entity)
    requires Proper(c) && Named(c, entity) && AllProper(rest) && AllNamed(rest, entity)
    requires RunReadable(d, c, rest, entity)
    ensures ParseOperand(d, OR, MixText(c, rest, entity))
         == Some((Skeleton(Group(AND, Run(c, rest)), entity), LinkText(AfterRun(rest), entity)))
  {
    ReadsRun(d, c, rest, entity);
    SkeletonOfGroup(AND, Run(c, rest), entity);
    assert ParseOperand(d, OR, MixText(c, rest, entity)) == ParseChain(d, AND, MixText(c, rest, entity));
  }

  lemma {:induction false} ReadsGroups(d: Dialect, c: Cond, rest: seq<Link>, entity: Entity)
    requires Proper(c) && Named(c, entity) && AllProper(rest) && AllNamed(rest, entity)
    requires Readable(d, c, entity) && AllReadable(d, rest, entity)
    ensures ParseOperands(d, OR, MixText(c, rest, entity)) == Some((Skeletons(Groups(c, rest), entity), ""))
    decreases |rest|
  {
    var s, more, group := MixText(c, rest, entity), AfterRun(rest), Group(AND, Run(c, rest));
    AllMakeRunReadable(d, c, rest, entity);
    ReadsGroup(d, c, rest, entity);
    if more == [] {
      EatsNot(Keyword(OR), "", 0);
      OneSkeleton(group, entity);
    } else {
      var others := MixText(more[0].c, more[1..], entity);
      assert more[0] in more && forall l :: l in more[1..] ==> l in more;
      assert ParseOperands(d, OR, others) == Some((Skeletons(Groups(more[0].c, more[1..]), entity), "")) by {
        ReadsGroups(d, more[0].c, more[1..], entity);
      }
      OneMoreOperandRead(d, OR, s, Skeleton(group, entity), others);
      assert ([group] + Groups(more[0].c, more[1..]))[1..] == Groups(more[0].c, more[1..]);
    }
  }

  lemma {:induction false} AllMakeRunReadable(d: Dialect, c: Cond, rest: seq<Link>, entity: Entity)
    requires Readable(d, c, entity) && AllReadable(d, rest, entity)
    ensures RunReadable(d, c, rest, entity)
    decreases |rest|
  {
    if rest != [] && rest[0].j == AND {
      assert rest[0] in rest && forall l :: l in rest[1..] ==> l in rest;
      AllMakeRunReadable(d, rest[0].c, rest[1..], entity);
    }
  }

  // ---------------------------------------------------------------- and otherwise not at all

  lemma {:induction false} LinksAreCalm(rest: seq<Link>, entity: Entity)
    requires AllProper(rest)
    ensures Calm(LinkText(rest, entity))
  {
  }

  /** A run with an unreadable part is not read. */
  lemma {:induction false} UnreadRun(d: Dialect, c: Cond, rest: seq<Link>, entity: Entity)
    requires Proper(c) && Named(c, entity) && AllProper(rest) && AllNamed(rest, entity)
    requires !RunReadable(d, c, rest, entity)
    ensures ParseOperands(d, AND, MixText(c, rest, entity)) == None
    decreases |rest|
  {
    var s, after := MixText(c, rest, entity), LinkText(rest, entity);
    if Readable(d, c, entity) {
      assert ParseOperand(d, AND, s) == Some((Skeleton(c, entity), after)) by {
        ReadsPrimary(d, c, entity, after);
      }
      Eats(Keyword(AND), MixText(rest[0].c, rest[1..], entity));
      assert rest[0] in rest && forall l :: l in rest[1..] ==> l in rest;
      UnreadRun(d, rest[0].c, rest[1..], entity);
    } else {
      LinksAreCalm(rest, entity);
      UnreadPrimary(d, c, entity, after);
      NothingReads(d, s, AND);
    }
  }

  /** The parts after a readable run. */
  lemma {:induction false} UnreadableIsLater(d: Dialect, c: Cond, rest: seq<Link>, entity: Entity)
    requires RunReadable(d, c, rest, entity) && !AllReadable(d, rest, entity)
    ensures !AllReadable(d, AfterRun(rest), entity)
    decreases |rest|
  {
    if rest[0].j == AND {
      assert rest == [rest[0]] + rest[1..];
      UnreadableIsLater(d, rest[0].c, rest[1..], entity);
    }
  }

  lemma {:induction false} UnreadGroups(d: Dialect, c: Cond, rest: seq<Link>, entity: Entity)
    requires Proper(c) && Named(c, entity) && AllProper(rest) && AllNamed(rest, entity)
    requires !(Readable(d, c, entity) && AllReadable(d, rest, entity))
    ensures ParseOperands(d, OR, MixText(c, rest, entity)) == None
    decreases |rest|
  {
    var s, more := MixText(c, rest, entity), AfterRun(rest);
    if RunReadable(d, c, rest, entity) {
      ReadsGroup(d, c, rest, entity);
      UnreadableIsLater(d, c, rest, entity);
      Eats(Keyword(OR), MixText(more[0].c, more[1..], entity));
      assert more == [more[0]] + more[1..] && more[0] in more && forall l :: l in more[1..] ==> l in more;
      UnreadGroups(d, more[0].c, more[1..], entity);
    } else {
      UnreadRun(d, c, rest, entity);
      assert ParseChain(d, AND, s) == None;
      assert ParseOperand(d, OR, s) == None;
    }
  }

  // ---------------------------------------------------------------- it is written that way

  lemma {:induction false} ListedPiece(c: Cond, rest: seq<Link>, entity: Entity)
    requires Proper(c) && AllProper(rest)
    ensures Adds(RenderedAll(Listed(c, rest), Some(entity)), MixText(c, rest, entity), MixValues(c, rest, entity))
    decreases |rest|
  {
    assert Adds(Rendered(Build(c), Some(entity)), Text(c, entity), Values(c, entity)) by {
      RenderedCondition(c, entity);
    }
    if rest == [] {
      SinglePiece(Build(c), entity);
      GroupedLeft("", "", Text(c, entity));
      assert Text(c, entity) + "" == Text(c, entity) && Values(c, entity) + [] == Values(c, entity);
    } else {
      assert rest[0] in rest && forall l :: l in rest[1..] ==> l in rest;
      assert Adds(RenderedAll(Listed(rest[0].c, rest[1..]), Some(entity)),
                  MixText(rest[0].c, rest[1..], entity), MixValues(rest[0].c, rest[1..], entity)) by {
        ListedPiece(rest[0].c, rest[1..], entity);
      }
      OneMoreLink(Build(c), rest[0].j, Listed(rest[0].c, rest[1..]), entity);
    }
  }

  lemma {:induction false} OneMoreLink(x: Expression, j: Junction, zs: seq<Expression>, entity: Entity)
    ensures var a, c := Rendered(x, Some(entity)), RenderedAll(zs, Some(entity));
      Adds(RenderedAll([x, Junct(j, [])] + zs, Some(entity)), a.text + (Keyword(j) + c.text), a.binding + c.binding)
  {
    RawPiece(Keyword(j), [], entity);
    ThreePieces(x, Junct(j, []), zs, entity);
    GroupedLeft<Value>([], [], RenderedAll(zs, Some(entity)).binding);
  }

  lemma {:induction false} ThreePieces(x: Expression, y: Expression, zs: seq<Expression>, entity: Entity)
    ensures var a, b, c := Rendered(x, Some(entity)), Rendered(y, Some(entity)), RenderedAll(zs, Some(entity));
      Adds(RenderedAll([x, y] + zs, Some(entity)), a.text + (b.text + c.text), a.binding + (b.binding + c.binding))
  {
    RenderedSum([x, y], zs, entity);
    assert [x, y] == [x] + [y];
    RenderedSum([x], [y], entity);
    SinglePiece(x, entity);
    SinglePiece(y, entity);
    ThenAssociates(Rendered(x, Some(entity)), Rendered(y, Some(entity)), RenderedAll(zs, Some(entity)));
  }

  lemma {:induction false} BareKeyword(j: Junction, entity: Entity)
    ensures Rendered(Junct(j, []), Some(entity)) == Piece(Keyword(j), [], None)
  {
    RawPiece(Keyword(j), [], entity);
  }

  lemma {:induction false} KeywordThen(j: Junction, e: Expression, entity: Entity)
    ensures Rendered(Junct(j, [e]), Some(entity)) == Piece(Keyword(j), [], None).Then(Rendered(e, Some(entity)))
  {
    SinglePiece(e, entity);
    var keyword := Piece(Keyword(j), [], None);
    ThenAssociates(keyword.Then(Rendered(e, Some(entity))), NOTHING, NOTHING);
    assert Keyword(j) != "FROM";
  }

  /** Anywhere in a list, AND or OR of one operand is rendered like the bare keyword with the operand behind it. */
  lemma {:induction false} OneOperandIsInfix(
      before: seq<Expression>, j: Junction, e: Expression, after: seq<Expression>, entity: Entity)
    ensures RenderedAll(before + [Junct(j, [e])] + after, Some(entity)) ==
            RenderedAll(before + [Junct(j, []), e] + after, Some(entity))
  {
    KeywordThen(j, e, entity);
    BareKeyword(j, entity);
    SinglePiece(Junct(j, [e]), entity);
    SinglePiece(Junct(j, []), entity);
    SinglePiece(e, entity);
    assert [Junct(j, []), e] == [Junct(j, [])] + [e];
    RenderedSum([Junct(j, [])], [e], entity);
    RenderedSum(before, [Junct(j, [e])], entity);
    RenderedSum(before, [Junct(j, []), e], entity);
    RenderedSum(before + [Junct(j, [e])], after, entity);
    RenderedSum(before + [Junct(j, []), e], after, entity);
  }

  /** So a list may use either form. */
  lemma {:induction false} InfixReadsAlike(d: Dialect, a: Cond, j: Junction, b: Cond, entity: Entity)
    requires Proper(a) && Named(a, entity) && Proper(b) && Named(b, entity)
    ensures var piece := RenderedAll([Build(a), Junct(j, [Build(b)])], Some(entity));
      && piece.binding == Values(Nested(j, [a, b]), entity)
      && Parse(d, piece.text) == if Readable(d, a, entity) && Readable(d, b, entity)
                                 then Some(Skeleton(Nested(j, [a, b]), entity)) else None
  {
    InfixPiece(a, j, b, entity);
    SpareParentheses(d, j, [a, b], entity);
  }

  lemma {:induction false} InfixPiece(a: Cond, j: Junction, b: Cond, entity: Entity)
    requires Proper(a) && Proper(b)
    ensures RenderedAll([Build(a), Junct(j, [Build(b)])], Some(entity)) ==
            RenderedAll(Joined(j, BuildAll([a, b])), Some(entity))
  {
    OneOperandIsInfix([Build(a)], j, Build(b), [], entity);
    assert [Build(a)] + [Junct(j, [Build(b)])] + [] == [Build(a), Junct(j, [Build(b)])];
    TwoJoined(j, a, b);
    assert [Build(a)] + [Junct(j, []), Build(b)] + [] == Joined(j, BuildAll([a, b]));
  }

  /**
   A condition with AND or OR of several right behind it, as in the second example for OR: without a keyword
   between the two the list is not read at all.
   */
  lemma {:induction false} MissingKeyword(d: Dialect, a: Cond, j: Junction, cs: seq<Cond>, entity: Entity)
    requires Proper(a) && Named(a, entity) && Readable(d, a, entity) && Proper(Nested(j, cs))
    ensures Parse(d, RenderedAll([Build(a), Build(Nested(j, cs))], Some(entity)).text) == None
  {
    var c := Nested(j, cs);
    var tail := Text(c, entity);
    RenderedCondition(a, entity);
    RenderedCondition(c, entity);
    assert [Build(a), Build(c)] == [Build(a)] + [Build(c)];
    RenderedSum([Build(a)], [Build(c)], entity);
    SinglePiece(Build(a), entity);
    SinglePiece(Build(c), entity);
    assert tail[0] == '(';
    ReadsPrimary(d, a, entity, tail);
    EatsNot(Keyword(AND), tail, 0);
    EatsNot(Keyword(OR), tail, 0);
    ReadsAlone(d, Text(a, entity) + tail, Skeleton(a, entity), tail);
  }

  lemma {:induction false} TwoJoined(j: Junction, a: Cond, b: Cond)
    requires Proper(a) && Proper(b)
    ensures Joined(j, BuildAll([a, b])) == [Build(a), Junct(j, []), Build(b)]
  {
    assert [a, b][..1] == [a] && [a][..0] == [];
    assert BuildAll([a]) == [Build(a)];
    assert BuildAll([a, b]) == [Build(a), Build(b)];
    assert [Build(a), Build(b)][..1] == [Build(a)];
  }

  // ---------------------------------------------------------------- the values stay in order

  lemma {:induction false} ValuesOfGroup(j: Junction, cs: seq<Cond>, entity: Entity)
    requires cs != []
    ensures Values(Group(j, cs), entity) == ValuesAll(cs, entity)
  {
    if |cs| == 1 {
      assert cs == [cs[0]] && cs[1..] == [];
      assert Values(cs[0], entity) + [] == Values(cs[0], entity);
    }
  }

  function LinkValues(rest: seq<Link>, entity: Entity): seq<Value> {
    if rest == [] then [] else MixValues(rest[0].c, rest[1..], entity)
  }

  lemma {:induction false} ValuesOfRun(c: Cond, rest: seq<Link>, entity: Entity)
    ensures MixValues(c, rest, entity) == ValuesAll(Run(c, rest), entity) + LinkValues(AfterRun(rest), entity)
    decreases |rest|
  {
    var run := Run(c, rest);
    if rest == [] || rest[0].j == OR {
      assert run[1..] == [];
      assert Values(c, entity) + [] == Values(c, entity);
    } else {
      ValuesOfRun(rest[0].c, rest[1..], entity);
      assert run[1..] == Run(rest[0].c, rest[1..]);
      GroupedLeft(Values(c, entity), ValuesAll(run[1..], entity), LinkValues(AfterRun(rest), entity));
    }
  }

  lemma {:induction false} ValuesOfGroups(c: Cond, rest: seq<Link>, entity: Entity)
    ensures MixValues(c, rest, entity) == ValuesAll(Groups(c, rest), entity)
    decreases |rest|
  {
    var more, groups := AfterRun(rest), Groups(c, rest);
    ValuesOfRun(c, rest, entity);
    ValuesOfGroup(AND, Run(c, rest), entity);
    if more == [] {
      assert groups[1..] == [];
    } else {
      ValuesOfGroups(more[0].c, more[1..], entity);
      assert groups[1..] == Groups(more[0].c, more[1..]);
    }
  }

  lemma {:induction false} RunResolves(d: Dialect, c: Cond, rest: seq<Link>, entity: Entity)
    requires Readable(d, c, entity) && AllReadable(d, rest, entity)
    ensures Resolves(Group(AND, Run(c, rest)), entity) && forall x :: x in Run(c, rest) ==> Resolves(x, entity)
    decreases |rest|
  {
    if rest != [] && rest[0].j == AND {
      assert rest[0] in rest && forall l :: l in rest[1..] ==> l in rest;
      RunResolves(d, rest[0].c, rest[1..], entity);
    }
  }

  lemma {:induction false} GroupsResolve(d: Dialect, c: Cond, rest: seq<Link>, entity: Entity)
    requires Readable(d, c, entity) && AllReadable(d, rest, entity)
    ensures Resolves(Grouped(c, rest), entity) && forall x :: x in Groups(c, rest) ==> Resolves(x, entity)
    decreases |rest|
  {
    var more := AfterRun(rest);
    RunResolves(d, c, rest, entity);
    if more != [] {
      assert more[0] in more && forall l :: l in more[1..] ==> l in more;
      GroupsResolve(d, more[0].c, more[1..], entity);
    }
  }

  /**
   Any conditions with any bare keywords between them can be read exactly if each of them can.  Then they
   are read as an OR of the longest AND runs, whatever grouping the caller had in mind, and with the
   rendered bindings they have the meaning of that OR.
   */
  lemma {:induction false} MixedKeywords(
      d: Dialect, c: Cond, rest: seq<Link>, entity: Entity, row: Row, holds: Comparator)
    requires Proper(c) && Named(c, entity) && AllProper(rest) && AllNamed(rest, entity)
    ensures var piece, grouped := RenderedAll(Listed(c, rest), Some(entity)), Grouped(c, rest);
      if Readable(d, c, entity) && AllReadable(d, rest, entity) then
        && Parse(d, piece.text) == Some(Skeleton(grouped, entity))
        && Evaluate(Skeleton(grouped, entity), piece.binding, row, holds) == (Meaning(grouped, entity, row, holds), [])
      else Parse(d, piece.text) == None
  {
    ListedPiece(c, rest, entity);
    if Readable(d, c, entity) && AllReadable(d, rest, entity) {
      ReadsGroups(d, c, rest, entity);
      SkeletonOfGroup(OR, Groups(c, rest), entity);
      GroupedMeaning(d, c, rest, entity, row, holds);
    } else {
      UnreadGroups(d, c, rest, entity);
    }
  }

  lemma {:induction false} GroupedMeaning(
      d: Dialect, c: Cond, rest: seq<Link>, entity: Entity, row: Row, holds: Comparator)
    requires Readable(d, c, entity) && AllReadable(d, rest, entity)
    ensures var grouped := Grouped(c, rest);
      Evaluate(Skeleton(grouped, entity), MixValues(c, rest, entity), row, holds)
      == (Meaning(grouped, entity, row, holds), [])
  {
    ValuesOfGroups(c, rest, entity);
    ValuesOfGroup(OR, Groups(c, rest), entity);
    GroupsResolve(d, c, rest, entity);
    EvaluatesToMeaning(Grouped(c, rest), entity, row, holds, []);
    assert Values(Grouped(c, rest), entity) + [] == Values(Grouped(c, rest), entity);
  }
}
