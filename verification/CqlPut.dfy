/**
 What a database reads in the statement that PutExpToString returns, always with a nil error: exactly when
 it is an UPDATE, and that it then sets what should be set where it should be.
 */
module CqlPut {
  import opened Wrappers
  import opened SqlExpression
  import opened CqlVisitor
  import opened StructFields
  import opened CqlStatements
  import opened CqlGrammar
  import opened CqlCondition
  import opened CqlMeaning
  import opened CqlMixture
  import opened CqlWhere
  import opened CqlReader

  /** The part of the statement before the condition. */
  function Head(entity: Entity): string {
    UpdateText(entity.table, Columns(SetFields(entity))) + " WHERE"
  }

  lemma {:induction false} TrimSolid(s: string)
    requires s != "" && s[0] != ' ' && s[|s| - 1] != ' '
    ensures Trim(s, ' ') == s && Trim(s + " ", ' ') == s
  {
    assert (s + " ")[..|s|] == s;
    assert TrimRight(s + " ", ' ') == TrimRight(s, ' ') == s;
    assert TrimLeft(s, ' ') == s && TrimLeft(s + " ", ' ') == s + " ";
  }

  /** A rendered condition is nothing, or it does not end in a blank. */
  lemma {:induction false} TextIsSolid(c: Cond, entity: Entity)
    requires Proper(c)
    ensures var text := Text(c, entity); text == "" || text[|text| - 1] != ' '
  {
  }

  /** The statement: what cannot be resolved is missing from it, in the extreme all after WHERE. */
  lemma {:induction false} PutStatementText(c: Cond, entity: Entity)
    requires Proper(c)
    ensures var text := Text(c, entity);
      PutStatement(Build(c), entity).text == if text == "" then Head(entity) else Head(entity) + " " + text
  {
    var text := Text(c, entity);
    RenderedCondition(c, entity);
    assert PutText(Build(c), entity) == Head(entity) + " " + text;
    assert Head(entity)[0] == 'U' && Head(entity)[|Head(entity)| - 1] == 'E';
    TextIsSolid(c, entity);
    if text == "" {
      assert Head(entity) + " " + text == Head(entity) + " ";
      TrimSolid(Head(entity));
    } else {
      var whole := Head(entity) + " " + text;
      assert whole[0] == 'U' && whole[|whole| - 1] == text[|text| - 1];
      TrimSolid(whole);
    }
  }

  /** The table and the columns of the entity have plain names. */
  predicate PlainEntity(entity: Entity) {
    IsTableName(entity.table) && forall f :: f in entity.fields && Column(f).Some? ==> IsName(Column(f).value)
  }

  lemma {:induction false} PlainEntityNames(c: Cond, entity: Entity)
    requires PlainEntity(entity)
    ensures Named(c, entity)
  {
    match c {
      case Compare(_, _, _) =>
      case Among(_, _) =>
      case Nested(_, cs) =>
        forall x | x in cs
          ensures Named(x, entity)
        {
          PlainEntityNames(x, entity);
        }
    }
  }

  lemma {:induction false} SetColumns(entity: Entity)
    requires PlainEntity(entity)
    ensures |Columns(SetFields(entity))| == |SetFields(entity)|
    ensures forall name :: name in Columns(SetFields(entity)) ==> IsName(name)
  {
    var fields := SetFields(entity);
    if fields != [] {
      ColumnAt(fields, 0);
    }
    forall k | 0 <= k < |Columns(fields)|
      ensures IsName(Columns(fields)[k])
    {
      ColumnAt(fields, k);
      KeptExactly(entity.fields, [CqlExported, FilterOutPK], fields[k]);
    }
  }

  /** The parts of the statement, as the reader takes them. */
  lemma {:induction false} PutParts(c: Cond, entity: Entity)
    requires Proper(c)
    ensures var update, text := UpdateText(entity.table, Columns(SetFields(entity))), Text(c, entity);
      PutStatement(Build(c), entity).text == update + if text == "" then " WHERE" else " WHERE " + text
  {
    PutStatementText(c, entity);
    HeadThen(UpdateText(entity.table, Columns(SetFields(entity))), Text(c, entity));
  }

  lemma {:induction false} HeadThen(update: string, text: string)
    ensures update + " WHERE" + " " + text == update + (" WHERE " + text)
  {
    assert " WHERE" + " " == " WHERE ";
  }

  /** The statement is read as an UPDATE exactly if something is set and something is left of the condition. */
  lemma {:induction false} PutReads(c: Cond, entity: Entity)
    requires Proper(c) && PlainEntity(entity)
    ensures ReadUpdate(PutStatement(Build(c), entity).text) ==
            if SetFields(entity) != [] && Text(c, entity) != ""
            then Some(Update(entity.table, Columns(SetFields(entity)), Text(c, entity))) else None
  {
    var names, text := Columns(SetFields(entity)), Text(c, entity);
    PutParts(c, entity);
    SetColumns(entity);
    if text == "" {
      UnreadUpdate(entity.table, names, " WHERE");
    } else if names == [] {
      UnreadUpdate(entity.table, names, " WHERE " + text);
    } else {
      ReadsUpdate(entity.table, names, text);
    }
  }

  /** A statement with its condition read as well: the table, the columns that are set, the condition. */
  function ParseUpdate(d: Dialect, sql: string): Option<(string, seq<string>, Parsed)> {
    var u := ReadUpdate(sql);
    if u == None || Parse(d, u.value.where) == None then None
    else Some((u.value.table, u.value.columns, Parse(d, u.value.where).value))
  }

  /**
   The returned statement is an UPDATE under a condition if and only if some column is set, every field of
   the condition has a column, and every operator is one of the dialect; then it is the UPDATE that was
   asked for.  Otherwise it is broken, and the nil error does not tell.
   */
  lemma {:induction false} PutIsUpdateIff(d: Dialect, c: Cond, entity: Entity)
    requires Proper(c) && PlainEntity(entity)
    ensures PutStatement(Build(c), entity).err == None
    ensures ParseUpdate(d, PutStatement(Build(c), entity).text) ==
            if SetFields(entity) != [] && Resolves(c, entity) && SpokenAll(d, c)
            then Some((entity.table, Columns(SetFields(entity)), Skeleton(c, entity))) else None
  {
    PutReads(c, entity);
    PlainEntityNames(c, entity);
    TextReadsIff(d, c, entity);
    NothingIsNoCondition(d);
  }

  lemma {:induction false} NothingIsNoCondition(d: Dialect)
    ensures Parse(d, "") == None && ParseWhere("") == None
  {
    NothingFollows();
    NoOperand(d, "");
    NothingReads(d, "", OR);
  }

  /** As an UPDATE of CQL, with its narrower WHERE clause. */
  function ParseCqlUpdate(sql: string): Option<(string, seq<string>, seq<Parsed>)> {
    var u := ReadUpdate(sql);
    if u == None || ParseWhere(u.value.where) == None then None
    else Some((u.value.table, u.value.columns, ParseWhere(u.value.where).value))
  }

  /** CQL reads the statement if and only if some column is set and the condition is a single relation. */
  lemma {:induction false} CqlReadsPutIff(c: Cond, entity: Entity)
    requires Proper(c) && PlainEntity(entity)
    ensures ParseCqlUpdate(PutStatement(Build(c), entity).text) ==
            if SetFields(entity) != [] && IsRelation(c, entity)
            then Some((entity.table, Columns(SetFields(entity)), [Skeleton(c, entity)])) else None
  {
    PutReads(c, entity);
    PlainEntityNames(c, entity);
    CqlTextReadsIff(c, entity);
    NothingIsNoCondition(Usual);
  }

  /**
   Its bindings lead first to the fields whose columns are set, in that order; the others are those by which
   the condition selects exactly the rows it means.
   */
  lemma {:induction false} PutBindingsMean(c: Cond, entity: Entity, row: Row, holds: Comparator)
    requires Proper(c) && PlainEntity(entity) && Resolves(c, entity)
    ensures var bindings, columns := PutStatement(Build(c), entity).bindings, Columns(SetFields(entity));
      && |columns| <= |bindings| && bindings[..|columns|] == Targets(SetFields(entity))
      && ((forall f :: f in entity.fields && IsSet(f) ==> !Panics(f)) ==>
            BindsSetFields(bindings, columns, entity.fields, AllAllocated(entity.fields, [CqlExported, FilterOutPK])))
      && Evaluate(Skeleton(c, entity), bindings[|columns|..], row, holds) == (Meaning(c, entity, row, holds), [])
  {
    var bindings, columns := PutStatement(Build(c), entity).bindings, Columns(SetFields(entity));
    PutBindingsSplit(c, entity);
    assert Evaluate(Skeleton(c, entity), bindings[|columns|..], row, holds) == (Meaning(c, entity, row, holds), []) by {
      EvaluatesToMeaning(c, entity, row, holds, []);
      assert Values(c, entity) + [] == Values(c, entity);
    }
    if forall f :: f in entity.fields && IsSet(f) ==> !Panics(f) {
      PutBindsSetFields(Build(c), entity);
    }
  }

  lemma {:induction false} PutBindingsSplit(c: Cond, entity: Entity)
    requires Proper(c) && PlainEntity(entity)
    ensures var bindings, n := PutStatement(Build(c), entity).bindings, |Columns(SetFields(entity))|;
      n <= |bindings| && bindings[..n] == Targets(SetFields(entity)) && bindings[n..] == Values(c, entity)
  {
    SetColumns(entity);
    RenderedCondition(c, entity);
    assert PutStatement(Build(c), entity).bindings == Targets(SetFields(entity)) + Values(c, entity);
  }

  /** An entity with a key and nothing else. */
  const KEY_ONLY := Entity("t", [FieldDesc("Id", "id", "id", Plain, 1, false, 0, 0)])

  lemma {:induction false} KeyOnlySetsNothing()
    ensures SetFields(KEY_ONLY) == [] && PlainEntity(KEY_ONLY)
  {
    var f := KEY_ONLY.fields[0];
    assert [f][..0] == [];
    PassesBoth(f);
    assert Kept([f], [CqlExported, FilterOutPK]) == [];
    assert KEY_ONLY.fields == [f];
  }

  lemma {:induction false} KeyOnlyCondition()
    ensures Text(Compare(1, EQ, 7), KEY_ONLY) == "id = ?"
    ensures Resolves(Compare(1, EQ, 7), KEY_ONLY)
  {
    assert FindField(1, KEY_ONLY.fields) == Some(KEY_ONLY.fields[0]);
    assert Resolve(1, Some(KEY_ONLY)).text == "id";
    assert "id" + (Spelling(EQ) + "?") == "id = ?";
  }

  lemma {:induction false} NothingSet(table: string)
    ensures UpdateText(table, []) == "UPDATE " + table + " SET "
  {
    assert UpdateHead(table) + "" == UpdateHead(table);
  }

  /** There is nothing to set in it: although the condition is fine, no UPDATE comes of it, nor an error. */
  lemma {:induction false} KeyOnlyIsNoUpdate(d: Dialect)
    ensures var put := PutStatement(Build(Compare(1, EQ, 7)), KEY_ONLY);
      && put.text == ("UPDATE " + "t" + " SET ") + (" WHERE " + "id = ?")
      && put.err == None && ParseUpdate(d, put.text) == None
  {
    var c := Compare(1, EQ, 7);
    KeyOnlySetsNothing();
    KeyOnlyCondition();
    PutParts(c, KEY_ONLY);
    NothingSet("t");
    PutReads(c, KEY_ONLY);
  }

  /** In the extreme, an equality on a field that cannot be resolved, the statement ends in a bare WHERE. */
  lemma {:induction false} UnresolvedConditionIsLost(pointer: Pointer, entity: Entity)
    requires !Resolvable(pointer, Some(entity))
    ensures PutStatement(FieldEQ(pointer), entity) == Statement(Head(entity), Targets(SetFields(entity)), None)
    ensures !AllResolve(FieldEQ(pointer), Some(entity))
  {
    var c := Compare(pointer, EQ, pointer);
    PutStatementText(c, entity);
    assert FieldEQ(pointer) == Build(c);
    assert Targets(SetFields(entity)) + [] == Targets(SetFields(entity));
  }
}
