/**
 What a database reads in the statement that SelectExpToString returns, and when ALLOW FILTERING is in it.
 */
module CqlSelect {
  import opened Wrappers
  import opened SqlExpression
  import opened CqlVisitor
  import opened StructFields
  import opened CqlStatements
  import opened CqlGrammar
  import opened CqlCondition
  import opened CqlMeaning
  import opened CqlMixture
  import opened CqlWhere
  import opened CqlReader
  import opened CqlPut

  /** The selected columns. */
  function Selected(entity: Entity): seq<string> {
    Columns(Kept(entity.fields, [CqlExported]))
  }

  /** The text of a SELECT from the entity under some listed conditions (SelectExpToString). */
  function SelectText(v: Value, conditions: seq<Expression>, entity: Entity): string {
    var clauses := Rendered(FROM(v, WHERE(conditions)), Some(entity)).text;
    SelectHead(entity) + clauses + Filtering(clauses)
  }

  /** It is what SelectExpToString returns for a FROM that is bound to the entity. */
  lemma {:induction false} ReturnedText(v: Value, conditions: seq<Expression>, structs: map<Value, Entity>)
    requires v in structs
    ensures var fromWhere, entity := FROM(v, WHERE(conditions)), structs[v];
      var text := SelfRendered(fromWhere, structs).text;
      && Found(fromWhere, structs, None) == Some(entity)
      && SelectText(v, conditions, entity) == SelectHead(entity) + text + Filtering(text)
  {
  }

  lemma {:induction false} ClausesText(v: Value, conditions: seq<Expression>, entity: Entity)
    ensures var where := RenderedAll(conditions, Some(entity));
      && Rendered(FROM(v, WHERE(conditions)), Some(entity)).text == " FROM " + (entity.table + (" WHERE " + where.text))
      && Rendered(FROM(v, WHERE(conditions)), Some(entity)).binding == where.binding
  {
    var where, inner := WHERE(conditions), RenderedAll(conditions, Some(entity));
    assert Rendered(where, Some(entity)).text == " WHERE " + inner.text by {
      assert " WHERE " + inner.text + "" == " WHERE " + inner.text;
    }
    assert Rendered(where, Some(entity)).binding == inner.binding by {
      assert [] + inner.binding + [] == inner.binding;
    }
    SinglePiece(where, entity);
    FromText(v, where, entity);
  }

  lemma {:induction false} FromText(v: Value, after: Expression, entity: Entity)
    requires RenderedAll([after], Some(entity)) == Rendered(after, Some(entity))
    ensures Rendered(FROM(v, after), Some(entity)).text
         == " FROM " + (entity.table + Rendered(after, Some(entity)).text)
    ensures Rendered(FROM(v, after), Some(entity)).binding == Rendered(after, Some(entity)).binding
  {
    var inner := Rendered(after, Some(entity));
    assert Start(FROM(v, after), Some(entity)) == " FROM " + entity.table;
    assert " FROM " + entity.table + inner.text + "" == " FROM " + (entity.table + inner.text);
    assert [] + inner.binding + [] == inner.binding;
  }

  lemma {:induction false} SelectedNames(entity: Entity)
    requires PlainEntity(entity)
    ensures forall name :: name in Selected(entity) ==> IsName(name)
  {
    var kept := Kept(entity.fields, [CqlExported]);
    KeptHaveColumns(entity.fields);
    if kept != [] {
      ColumnAt(kept, 0);
    }
    forall k | 0 <= k < |Selected(entity)|
      ensures IsName(Selected(entity)[k])
    {
      ColumnAt(kept, k);
      KeptExactly(entity.fields, [CqlExported], kept[k]);
    }
  }

  /** The statement is read as a SELECT exactly if there is a column to select. */
  lemma {:induction false} SelectReads(v: Value, conditions: seq<Expression>, entity: Entity)
    requires PlainEntity(entity) && !EndsIn(RenderedAll(conditions, Some(entity)).text, FILTERING)
    ensures var where := RenderedAll(conditions, Some(entity)).text;
      ReadSelect(SelectText(v, conditions, entity)) ==
      if Selected(entity) == [] then None
      else Some(Select(Selected(entity), entity.table, where,
                       Contains(" FROM " + (entity.table + (" WHERE " + where)), "AND")))
  {
    var where := RenderedAll(conditions, Some(entity)).text;
    var clauses := " FROM " + (entity.table + (" WHERE " + where));
    var filtering := Contains(clauses, "AND");
    ClausesText(v, conditions, entity);
    SelectedNames(entity);
    var tail := if filtering then FILTERING else "";
    assert Filtering(clauses) == tail;
    if Selected(entity) == [] {
      assert SelectText(v, conditions, entity) == "SELECT " + (clauses + tail);
      UnreadSelect(clauses + tail);
    } else {
      SelectGrouped(ColumnList(Selected(entity)), entity.table, where, tail);
      ReadsSelect(Selected(entity), entity.table, where, filtering);
    }
  }

  lemma {:induction false} SelectGrouped(list: string, table: string, where: string, tail: string)
    ensures "SELECT " + list + (" FROM " + (table + (" WHERE " + where))) + tail
         == "SELECT " + (list + (" FROM " + (table + (" WHERE " + (where + tail)))))
  {
    var clauses := " FROM " + (table + (" WHERE " + where));
    assert clauses + tail == " FROM " + (table + (" WHERE " + (where + tail)));
    assert "SELECT " + list + clauses + tail == "SELECT " + (list + (clauses + tail));
  }

  lemma {:induction false} TextIsNotFiltering(c: Cond, entity: Entity)
    requires Proper(c)
    ensures !EndsIn(Text(c, entity), FILTERING)
  {
    TextEnds(c, entity);
    OtherEnd(Text(c, entity));
  }

  lemma {:induction false} TextEnds(c: Cond, entity: Entity)
    requires Proper(c)
    ensures var text := Text(c, entity); text == "" || text[|text| - 1] == '?' || text[|text| - 1] == ')'
  {
  }

  lemma {:induction false} OtherEnd(s: string)
    requires s == "" || s[|s| - 1] != 'G'
    ensures !EndsIn(s, FILTERING)
  {
    assert FILTERING[|FILTERING| - 1] == 'G';
    assert |FILTERING| <= |s| ==> s[|s| - |FILTERING|..][|FILTERING| - 1] == s[|s| - 1];
  }

  lemma {:induction false} MixEnds(c: Cond, rest: seq<Link>, entity: Entity)
    requires Proper(c) && AllProper(rest)
    ensures var s := MixText(c, rest, entity); s == "" || s[|s| - 1] != 'G'
    decreases |rest|
  {
    TextEnds(c, entity);
    if rest == [] {
      assert MixText(c, rest, entity) == Text(c, entity);
    } else {
      assert rest[0] in rest && forall l :: l in rest[1..] ==> l in rest;
      MixEnds(rest[0].c, rest[1..], entity);
      EndOfSum(Text(c, entity), Keyword(rest[0].j), MixText(rest[0].c, rest[1..], entity));
    }
  }

  lemma {:induction false} EndOfSum(a: string, b: string, c: string)
    requires b != "" && b[|b| - 1] != 'G' && (c == "" || c[|c| - 1] != 'G')
    ensures var s := a + (b + c); s != "" && s[|s| - 1] != 'G'
  {
  }

  // ---------------------------------------------------------------- a single condition

  /** A SELECT with its condition read as well: the columns, the table, the condition, ALLOW FILTERING. */
  function ParseSelect(d: Dialect, sql: string): Option<(seq<string>, string, Parsed, bool)> {
    var s := ReadSelect(sql);
    if s == None || Parse(d, s.value.where) == None then None
    else Some((s.value.columns, s.value.table, Parse(d, s.value.where).value, s.value.filtering))
  }

  function ParseCqlSelect(sql: string): Option<(seq<string>, string, seq<Parsed>, bool)> {
    var s := ReadSelect(sql);
    if s == None || ParseWhere(s.value.where) == None then None
    else Some((s.value.columns, s.value.table, ParseWhere(s.value.where).value, s.value.filtering))
  }

  /**
   The statement is a SELECT under a condition if and only if a column is selected, every field of the
   condition has a column, and every operator is one of the dialect.  SelectExpToString returns no error
   when it is not: the one of the visitor is lost.
   */
  lemma {:induction false} SelectIsReadIff(d: Dialect, v: Value, c: Cond, entity: Entity)
    requires Proper(c) && PlainEntity(entity)
    ensures ParseSelect(d, SelectText(v, [Build(c)], entity)) ==
            if Selected(entity) != [] && Resolves(c, entity) && SpokenAll(d, c)
            then Some((Selected(entity), entity.table, Skeleton(c, entity), Filters(c, entity))) else None
  {
    SinglePiece(Build(c), entity);
    RenderedCondition(c, entity);
    TextIsNotFiltering(c, entity);
    SelectReads(v, [Build(c)], entity);
    PlainEntityNames(c, entity);
    TextReadsIff(d, c, entity);
    ClausesHaveAndIff(c, entity);
  }

  /** In CQL, if and only if a column is selected and the condition is a single relation. */
  lemma {:induction false} CqlReadsSelectIff(v: Value, c: Cond, entity: Entity)
    requires Proper(c) && PlainEntity(entity)
    ensures ParseCqlSelect(SelectText(v, [Build(c)], entity)) ==
            if Selected(entity) != [] && IsRelation(c, entity)
            then Some((Selected(entity), entity.table, [Skeleton(c, entity)], Filters(c, entity))) else None
  {
    SinglePiece(Build(c), entity);
    RenderedCondition(c, entity);
    TextIsNotFiltering(c, entity);
    SelectReads(v, [Build(c)], entity);
    PlainEntityNames(c, entity);
    CqlTextReadsIff(c, entity);
    ClausesHaveAndIff(c, entity);
  }

  lemma {:induction false} AllNamedIn(rest: seq<Link>, entity: Entity)
    requires PlainEntity(entity)
    ensures AllNamed(rest, entity)
  {
    forall l | l in rest
      ensures Named(l.c, entity)
    {
      PlainEntityNames(l.c, entity);
    }
  }

  /** And conditions listed with bare keywords: if and only if they are relations with AND between them. */
  lemma {:induction false} CqlReadsSelectListIff(v: Value, c: Cond, rest: seq<Link>, entity: Entity)
    requires Proper(c) && AllProper(rest) && PlainEntity(entity)
    ensures var read := ParseCqlSelect(SelectText(v, CqlMixture.Listed(c, rest), entity));
      if Selected(entity) != [] && IsRelation(c, entity) && AllRelations(rest, entity) then
        && read.Some? && read.value.0 == Selected(entity) && read.value.1 == entity.table
        && read.value.2 == Skeletons(Run(c, rest), entity)
      else read == None
  {
    ListedPiece(c, rest, entity);
    MixEnds(c, rest, entity);
    OtherEnd(MixText(c, rest, entity));
    SelectReads(v, CqlMixture.Listed(c, rest), entity);
    PlainEntityNames(c, entity);
    AllNamedIn(rest, entity);
    ReadsRelations(c, rest, entity);
  }

  // ---------------------------------------------------------------- ALLOW FILTERING

  /** Somewhere in the condition AND joins something. */
  predicate Joins(c: Cond) {
    c.Nested? && (c.j == AND || exists x :: x in c.cs && Joins(x))
  }

  /** The letters AND are in the name of a column of the condition. */
  predicate NamesAnd(c: Cond, entity: Entity) {
    match c
    case Compare(pointer, _, _) => FieldNamesAnd(pointer, entity)
    case Among(pointer, _) => FieldNamesAnd(pointer, entity)
    case Nested(_, cs) => exists x :: x in cs && NamesAnd(x, entity)
  }

  predicate FieldNamesAnd(pointer: Pointer, entity: Entity) {
    Resolvable(pointer, Some(entity)) && Contains(Resolve(pointer, Some(entity)).text, "AND")
  }

  /** When ALLOW FILTERING is written. */
  predicate Filters(c: Cond, entity: Entity) {
    Joins(c) || NamesAnd(c, entity) || Contains(entity.table, "AND")
  }

  /** It is written for conjunctions only if and only if there is one, or no name has the letters in it. */
  lemma {:induction false} FilteringIsRightIff(v: Value, c: Cond, entity: Entity)
    requires Proper(c)
    ensures (Contains(Rendered(FROM(v, WHERE([Build(c)])), Some(entity)).text, "AND") <==> Joins(c)) <==>
            Joins(c) || !(NamesAnd(c, entity) || Contains(entity.table, "AND"))
  {
    ClausesText(v, [Build(c)], entity);
    SinglePiece(Build(c), entity);
    RenderedCondition(c, entity);
    ClausesHaveAndIff(c, entity);
  }

  /** A column named BRAND is enough. */
  lemma {:induction false} BrandIsFiltered(c: Cond, entity: Entity)
    requires c.Compare? && Resolvable(c.pointer, Some(entity)) && Resolve(c.pointer, Some(entity)).text == "BRAND"
    ensures Filters(c, entity) && !Joins(c)
  {
    assert At("BRAND", 2, "AND");
  }

  lemma {:induction false} AtChars(s: string, i: nat)
    ensures At(s, i, "AND") <==> i + 3 <= |s| && s[i] == 'A' && s[i + 1] == 'N' && s[i + 2] == 'D'
  {
    if i + 3 <= |s| {
      assert s[i..i + 3] == [s[i], s[i + 1], s[i + 2]];
    }
  }

  lemma {:induction false} WithoutA(s: string)
    requires 'A' !in s
    ensures !Contains(s, "AND")
  {
    forall i | 0 <= i <= |s| - 3
      ensures !At(s, i, "AND")
    {
      AtChars(s, i);
    }
  }

  /** The letters cannot stand across the border. */
  predicate Apart(a: string, b: string) {
    a == "" || b == "" || (a[|a| - 1] != 'A' && a[|a| - 1] != 'N') || (b[0] != 'N' && b[0] != 'D')
  }

  lemma {:induction false} ContainsOfSum(a: string, b: string)
    requires Apart(a, b)
    ensures Contains(a + b, "AND") <==> Contains(a, "AND") || Contains(b, "AND")
  {
    var s := a + b;
    if Contains(a, "AND") {
      var i :| 0 <= i <= |a| - 3 && At(a, i, "AND");
      AtChars(a, i);
      AtChars(s, i);
    }
    if Contains(b, "AND") {
      var i :| 0 <= i <= |b| - 3 && At(b, i, "AND");
      AtChars(b, i);
      AtChars(s, |a| + i);
      assert At(s, |a| + i, "AND");
    }
    if Contains(s, "AND") {
      var i :| 0 <= i <= |s| - 3 && At(s, i, "AND");
      AtChars(s, i);
      OneSide(a, b, i);
    }
  }

  lemma {:induction false} OneSide(a: string, b: string, i: nat)
    requires Apart(a, b) && i + 3 <= |a + b|
    requires (a + b)[i] == 'A' && (a + b)[i + 1] == 'N' && (a + b)[i + 2] == 'D'
    ensures Contains(a, "AND") || Contains(b, "AND")
  {
    if i + 3 <= |a| {
      AtChars(a, i);
    } else {
      assert i >= |a|;
      AtChars(b, i - |a|);
      assert At(b, i - |a|, "AND");
    }
  }

  lemma {:induction false} NoLettersInRefs(n: nat)
    ensures 'A' !in Refs(n)
  {
    if n > 0 {
      NoLettersInRefs(n - 1);
    }
  }

  lemma {:induction false} FieldHasAndIff(pointer: Pointer, after: string, entity: Entity)
    requires after != "" && after[0] == ' ' && 'A' !in after
    ensures Contains(FieldText(pointer, after, entity), "AND") <==> FieldNamesAnd(pointer, entity)
  {
    WithoutA(after);
    WithoutA("");
    ContainsOfSum(Resolve(pointer, Some(entity)).text, after);
  }

  lemma {:induction false} TextHasAndIff(c: Cond, entity: Entity)
    requires Proper(c)
    ensures Contains(Text(c, entity), "AND") <==> Joins(c) || NamesAnd(c, entity)
    decreases c, 1
  {
    match c {
      case Compare(pointer, op, _) => FieldHasAndIff(pointer, Spelling(op) + "?", entity);
      case Among(pointer, vs) =>
        NoLettersInRefs(|vs|);
        FieldHasAndIff(pointer, " IN(" + (Refs(|vs|)[1..] + ")"), entity);
      case Nested(j, cs) =>
        TextAllHasAndIff(j, cs, entity);
        InParentheses(TextAll(j, cs, entity));
    }
  }

  lemma {:induction false} InParentheses(s: string)
    ensures Contains("(" + (s + ")"), "AND") <==> Contains(s, "AND")
  {
    WithoutA("(");
    WithoutA(")");
    ContainsOfSum(s, ")");
    ContainsOfSum("(", s + ")");
  }

  lemma {:induction false} KeywordHasAnd(j: Junction)
    ensures Contains(Keyword(j), "AND") <==> j == AND
  {
    if j == AND {
      assert At(Keyword(AND), 1, "AND");
    } else {
      WithoutA(Keyword(OR));
    }
  }

  predicate AnyAnd(cs: seq<Cond>, entity: Entity) {
    exists x :: x in cs && (Joins(x) || NamesAnd(x, entity))
  }

  lemma {:induction false} AnyAndParts(cs: seq<Cond>, entity: Entity)
    requires cs != []
    ensures AnyAnd(cs, entity) <==> Joins(cs[0]) || NamesAnd(cs[0], entity) || AnyAnd(cs[1..], entity)
    ensures |cs| == 1 ==> !AnyAnd(cs[1..], entity)
  {
    assert cs == [cs[0]] + cs[1..];
    assert cs[0] in cs && forall x :: x in cs[1..] ==> x in cs;
  }

  lemma {:induction false} TextAllHasAndIff(j: Junction, cs: seq<Cond>, entity: Entity)
    requires forall c :: c in cs ==> Proper(c)
    ensures Contains(TextAll(j, cs, entity), "AND") <==>
            (|cs| > 1 && j == AND) || AnyAnd(cs, entity)
    decreases cs, 0
  {
    if cs == [] {
      WithoutA("");
    } else {
      AnyAndParts(cs, entity);
      assert Contains(Text(cs[0], entity), "AND") <==> Joins(cs[0]) || NamesAnd(cs[0], entity) by {
        TextHasAndIff(cs[0], entity);
      }
      if |cs| > 1 {
        TextAllHasAndIff(j, cs[1..], entity);
        KeywordBetween(Text(cs[0], entity), j, TextAll(j, cs[1..], entity));
      }
    }
  }

  lemma {:induction false} KeywordBetween(a: string, j: Junction, b: string)
    ensures Contains(a + (Keyword(j) + b), "AND") <==> Contains(a, "AND") || j == AND || Contains(b, "AND")
  {
    KeywordHasAnd(j);
    ContainsOfSum(Keyword(j), b);
    ContainsOfSum(a, Keyword(j) + b);
  }

  lemma {:induction false} ClausesHaveAndIff(c: Cond, entity: Entity)
    requires Proper(c)
    ensures Contains(" FROM " + (entity.table + (" WHERE " + Text(c, entity))), "AND") <==> Filters(c, entity)
  {
    TextHasAndIff(c, entity);
    WithoutA(" FROM ");
    WithoutA(" WHERE ");
    ContainsOfSum(" WHERE ", Text(c, entity));
    ContainsOfSum(entity.table, " WHERE " + Text(c, entity));
    ContainsOfSum(" FROM ", entity.table + (" WHERE " + Text(c, entity)));
  }
}
