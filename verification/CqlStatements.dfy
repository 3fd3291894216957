/**
 db/sql/cassandra/query.go: whole statements, and that every placeholder of what the driver executes is bound to
 the value it was written for.
 */
module CqlStatements {
  import opened Wrappers
  import opened SqlExpression
  import opened CqlVisitor
  import opened CqlAlignment
  import opened StructFields

  // ---------------------------------------------------------------- strings.Trim

  function TrimRight<T(==)>(s: seq<T>, blank: T): seq<T> {
    if s != [] && s[|s| - 1] == blank then TrimRight(s[..|s| - 1], blank) else s
  }

  function TrimLeft<T(==)>(s: seq<T>, blank: T): seq<T> {
    if s != [] && s[0] == blank then TrimLeft(s[1..], blank) else s
  }

  function Trim<T(==)>(s: seq<T>, blank: T): seq<T> {
    TrimRight(TrimLeft(s, blank), blank)
  }

  /** Trimming blanks off a statement does not move a placeholder away from its binding. */
  lemma {:induction false} FillTrimmed(text: string, binding: seq<Value>)
    requires Fill(text, binding).Some?
    ensures Fill(Trim(text, ' '), binding) == Some(Trim(Fill(text, binding).value, Ch(' ')))
  {
    FillTrimLeft(text, binding);
    FillTrimRight(TrimLeft(text, ' '), binding);
  }

  lemma {:induction false} FillTrimLeft(text: string, binding: seq<Value>)
    requires Fill(text, binding).Some?
    ensures Fill(TrimLeft(text, ' '), binding) == Some(TrimLeft(Fill(text, binding).value, Ch(' ')))
  {
    if text != "" && text[0] == ' ' {
      var rest := Fill(text[1..], binding).value;
      assert ([Ch(' ')] + rest)[1..] == rest;
      FillTrimLeft(text[1..], binding);
    }
  }

  lemma {:induction false} FillTrimRight(text: string, binding: seq<Value>)
    requires Fill(text, binding).Some?
    ensures Fill(TrimRight(text, ' '), binding) == Some(TrimRight(Fill(text, binding).value, Ch(' ')))
  {
    if text != "" {
      var n := |text| - 1;
      FillIsPositional(text, binding, n);
      if text[n] == ' ' {
        var init := text[..n];
        assert text == init + [' '];
        PlainHasNoMarks([' ']);
        MarksOfSum(init, [' ']);
        FillsIffCountsAgree(text, binding);
        FillsIffCountsAgree(init, binding);
        FillPlain([' ']);
        FillOfSum(init, binding, [' '], []);
        assert binding + [] == binding;
        assert Fill(text, binding).value == Fill(init, binding).value + [Ch(' ')];
        assert (Fill(init, binding).value + [Ch(' ')])[..|Fill(init, binding).value|] == Fill(init, binding).value;
        FillTrimRight(init, binding);
      }
    }
  }

  // ---------------------------------------------------------------- UPDATE

  function Separator(first: bool): string {
    if first then "" else ", "
  }

  function SetList(names: seq<string>): string {
    if names == [] then ""
    else SetList(names[..|names| - 1]) + Separator(|names| == 1) + names[|names| - 1] + " = ?"
  }

  function UpdateHead(table: string): string {
    "UPDATE " + table + " SET "
  }

  function UpdateText(table: string, names: seq<string>): string {
    UpdateHead(table) + SetList(names)
  }

  /** query.go:260-285. */
  method UpdateStatement(cfName: string, fields: seq<string>) returns (statement: string)
    ensures statement == UpdateText(cfName, fields)
  {
    var list := "";
    var first := true;
    for i := 0 to |fields|
      invariant first <==> i == 0
      invariant list == SetList(fields[..i])
    {
      assert fields[..i + 1][..i] == fields[..i];
      if !first {
        list := list + ", ";
      } else {
        first := false;
        assert list + "" == list;
      }
      list := list + fields[i];
      list := list + " = ?";
    }
    assert fields[..|fields|] == fields;
    statement := "UPDATE " + cfName + " " + "SET " + list;
    assert UpdateHead(cfName) == "UPDATE " + cfName + " " + "SET ";
  }

  /** What SET should assign: the value of every set field to the column of that very field. */
  function Assignments(fields: seq<FieldDesc>): seq<Symbol>
    requires forall f :: f in fields ==> Column(f).Some?
  {
    if fields == [] then []
    else
      var last := fields[|fields| - 1];
      Assignments(fields[..|fields| - 1]) +
      Symbols(Separator(|fields| == 1) + Column(last).value + " = ") + [Hole(Target(last))]
  }

  /** The fields an UPDATE of the entity sets, in order. */
  function SetFields(entity: Entity): (r: seq<FieldDesc>)
    ensures forall f :: f in r ==> IsSet(f)
  {
    ChainsAgree(entity.fields);
    Kept(entity.fields, [CqlExported, FilterOutPK])
  }

  /** What an UPDATE of the entity under a condition should say. */
  function UpdateTemplate(where: Expression, entity: Entity): seq<Symbol>
    requires InPlace(where)
  {
    Trim(Symbols(UpdateHead(entity.table)) + Assignments(SetFields(entity)) +
         Symbols(" WHERE ") + Template(where, Some(entity)),
         Ch(' '))
  }

  function PutText(where: Expression, entity: Entity): string {
    UpdateText(entity.table, Columns(SetFields(entity))) + " WHERE " + Rendered(where, Some(entity)).text
  }

  datatype Statement = Statement(text: string, bindings: seq<Value>, err: Option<Error>)

  /** What an UPDATE of the entity under a condition is, with its nil error. */
  function PutStatement(where: Expression, entity: Entity): Statement {
    var bindings := Targets(SetFields(entity)) + Rendered(where, Some(entity)).binding;
    Statement(Trim(PutText(where, entity), ' '), bindings, None)
  }

  /**
   The columns are those of the fields to set, in the order of the fields, and the values bound first lead to
   these very fields; no other field is touched.
   */
  ghost predicate BindsSetFields(bindings: seq<Value>, columns: seq<string>, was: seq<FieldDesc>, now: seq<FieldDesc>) {
    exists at :: BindsSetFieldsAt(bindings, columns, at, was, now)
  }

  ghost predicate BindsSetFieldsAt(bindings: seq<Value>, columns: seq<string>, at: seq<nat>,
                                   was: seq<FieldDesc>, now: seq<FieldDesc>)
  {
    && Ascending(at, |was|)
    && (forall i :: 0 <= i < |was| ==> (i in at <==> IsSet(was[i])))
    && |columns| == |at| <= |bindings|
    && (forall k :: 0 <= k < |at| ==> Column(was[at[k]]) == Some(columns[k]))
    && ValuesLeadTo(bindings[..|at|], at, was, now)
  }

  /** The columns written to SET and the values bound to them are of the same fields of the entity. */
  lemma {:induction false} PutBindsSetFields(where: Expression, entity: Entity)
    requires forall f :: f in entity.fields && IsSet(f) ==> !Panics(f)
    ensures BindsSetFields(PutStatement(where, entity).bindings, Columns(SetFields(entity)),
                           entity.fields, AllAllocated(entity.fields, [CqlExported, FilterOutPK]))
  {
    var update := [CqlExported, FilterOutPK];
    var fields, kept, at := entity.fields, SetFields(entity), KeptAt(entity.fields, update);
    KeptInOrder(fields, update);
    SetColumnsAt(fields);
    assert forall k :: 0 <= k < |kept| ==> kept[k] in fields;
    TargetsLeadToFields(fields, update);
    assert PutStatement(where, entity).bindings[..|at|] == Targets(kept);
    assert BindsSetFieldsAt(PutStatement(where, entity).bindings, Columns(kept), at, fields,
                            AllAllocated(fields, update));
  }

  lemma {:induction false} SetColumnsAt(fields: seq<FieldDesc>)
    ensures var update := [CqlExported, FilterOutPK];
      && |Columns(Kept(fields, update))| == |KeptAt(fields, update)|
      && (forall i :: 0 <= i < |fields| ==> (Passes(fields[i], update) <==> IsSet(fields[i])))
      && forall k :: 0 <= k < |KeptAt(fields, update)| ==>
           KeptAt(fields, update)[k] < |fields| &&
           Column(fields[KeptAt(fields, update)[k]]) == Some(Columns(Kept(fields, update))[k])
  {
    var update := [CqlExported, FilterOutPK];
    forall i | 0 <= i < |fields|
      ensures Passes(fields[i], update) <==> IsSet(fields[i])
    {
      PassesBoth(fields[i]);
    }
    ChainsAgree(fields);
    if Kept(fields, update) != [] {
      ColumnAt(Kept(fields, update), 0);
    }
    forall k | 0 <= k < |KeptAt(fields, update)|
      ensures KeptAt(fields, update)[k] < |fields|
      ensures Column(fields[KeptAt(fields, update)[k]]) == Some(Columns(Kept(fields, update))[k])
    {
      KeptIsThere(fields, update, k);
      ColumnAt(Kept(fields, update), k);
    }
  }

  /**
   query.go:28-47. The statement and its bindings line up for every condition that is in place, also
   when a field of it cannot be resolved; that error is lost: err is always nil.  None is a run-time
   panic, which a nil interface among the set fields causes, or one that Go does not export; nil pointers
   among them get allocated.
   */
  method PutExpToString(whereCondition: Expression, entity: Struct) returns (put: Option<Statement>)
    modifies entity
    ensures put == None <==> exists f :: f in old(entity.fields) && IsSet(f) && Panics(f)
    ensures put.Some? ==> put.value == PutStatement(whereCondition, old(entity.AsEntity()))
    ensures put.Some? ==> entity.fields == AllAllocated(old(entity.fields), [CqlExported, FilterOutPK])
    ensures put.Some? ==> BindsSetFields(put.value.bindings, Columns(SetFields(old(entity.AsEntity()))),
                                         old(entity.fields), entity.fields)
    ensures put.Some? && InPlace(whereCondition) && PlainNames(Some(old(entity.AsEntity()))) ==>
              Fill(put.value.text, put.value.bindings) == Some(UpdateTemplate(whereCondition, old(entity.AsEntity())))
  {
    ghost var was := entity.AsEntity();
    var where := ConditionToString(whereCondition, entity.AsEntity());
    var fields := SliceOfFieldNames(entity.fields);
    var statement := UpdateStatement(entity.table, fields);
    ChainsAgree(was.fields);
    var bindings := SetFieldValues(entity);
    if bindings == None {
      return None;
    }
    put := Some(Statement(Trim(statement + " WHERE " + where.text, ' '), bindings.value + where.binding, None));
    assert put.value == PutStatement(whereCondition, was);
    PutBindsSetFields(whereCondition, was);
    if InPlace(whereCondition) && PlainNames(Some(was)) {
      UpdateLinesUp(whereCondition, was);
    }
  }

  /** query.go:29-31, the condition with a visitor of its own. */
  method ConditionToString(whereCondition: Expression, entity: Entity) returns (where: Piece)
    ensures where == Rendered(whereCondition, Some(entity))
  {
    var whereConditionStr := new ToStringVisitor(Some(entity));
    whereConditionStr.Accept(whereCondition);
    ThenAssociates(Rendered(whereCondition, Some(entity)), NOTHING, NOTHING);
    where := Piece(whereConditionStr.generated, whereConditionStr.binding, whereConditionStr.lastError);
  }

  /** query.go:40, the values of the fields to set, or None for the panic. */
  method SetFieldValues(entity: Struct) returns (bindings: Option<seq<Value>>)
    modifies entity
    ensures bindings == None <==> exists f :: f in old(entity.fields) && IsSet(f) && Panics(f)
    ensures bindings.Some? ==> bindings.value == Targets(SetFields(old(entity.AsEntity())))
    ensures bindings.Some? ==> entity.fields == AllAllocated(old(entity.fields), [CqlExported, FilterOutPK])
  {
    ListingPanicsIff(entity.fields);
    assert entity.fields[..|entity.fields|] == entity.fields;
    var listing := ListExportedFieldsPtrs(entity, [CqlExported, FilterOutPK]);
    bindings := if listing == None then None else Some(listing.value.valPtrs);
  }

  lemma {:induction false} ListingPanicsIff(fields: seq<FieldDesc>)
    ensures PanicAt(fields, [CqlExported, FilterOutPK], 0) < |fields| <==>
            exists f :: f in fields && IsSet(f) && Panics(f)
  {
    PanicsIff(fields, [CqlExported, FilterOutPK], 0);
    forall f | f in fields
      ensures Passes(f, [CqlExported, FilterOutPK]) <==> IsSet(f)
    {
      PassesBoth(f);
    }
    if f :| f in fields && IsSet(f) && Panics(f) {
      var j :| 0 <= j < |fields| && fields[j] == f;
    }
  }

  lemma {:induction false} UpdateLinesUp(where: Expression, entity: Entity)
    requires InPlace(where) && PlainNames(Some(entity))
    ensures Fill(Trim(PutText(where, entity), ' '), Targets(SetFields(entity)) + Rendered(where, Some(entity)).binding)
         == Some(UpdateTemplate(where, entity))
  {
    var fields, piece := SetFields(entity), Rendered(where, Some(entity));
    SetPartLinesUp(entity);
    PlaceholdersLineUp(where, Some(entity));
    var update := UpdateText(entity.table, Columns(fields));
    PlainHasNoMarks(" WHERE ");
    FillPlain(" WHERE ");
    FillOfSum(update, Targets(fields), " WHERE ", []);
    FillOfSum(update + " WHERE ", Targets(fields) + [], piece.text, piece.binding);
    assert Targets(fields) + [] == Targets(fields);
    FillTrimmed(PutText(where, entity), Targets(fields) + piece.binding);
  }

  lemma {:induction false} SetPartLinesUp(entity: Entity)
    requires PlainNames(Some(entity))
    ensures Fill(UpdateText(entity.table, Columns(SetFields(entity))), Targets(SetFields(entity)))
         == Some(Symbols(UpdateHead(entity.table)) + Assignments(SetFields(entity)))
  {
    var fields := SetFields(entity);
    SetNamesArePlain(entity);
    AssignmentsLineUp(fields);
    HeadIsPlain(entity);
    FillPlain(UpdateHead(entity.table));
    FillOfSum(UpdateHead(entity.table), [], SetList(Columns(fields)), Targets(fields));
    assert [] + Targets(fields) == Targets(fields);
  }

  lemma {:induction false} SetNamesArePlain(entity: Entity)
    requires PlainNames(Some(entity))
    ensures forall f :: f in SetFields(entity) ==> Marks(Column(f).value) == 0
  {
    forall f | f in SetFields(entity)
      ensures Marks(Column(f).value) == 0
    {
      KeptExactly(entity.fields, [CqlExported, FilterOutPK], f);
    }
  }

  lemma {:induction false} HeadIsPlain(entity: Entity)
    requires PlainNames(Some(entity))
    ensures Marks(UpdateHead(entity.table)) == 0
  {
    PlainHasNoMarks("UPDATE ");
    PlainHasNoMarks(" SET ");
    MarksOfSum("UPDATE ", entity.table);
    MarksOfSum("UPDATE " + entity.table, " SET ");
  }

  lemma {:induction false} AssignmentsLineUp(fields: seq<FieldDesc>)
    requires forall f :: f in fields ==> Column(f).Some? && Marks(Column(f).value) == 0
    ensures |Columns(fields)| == |fields|
    ensures Fill(SetList(Columns(fields)), Targets(fields)) == Some(Assignments(fields))
  {
    if fields != [] {
      var init, last := fields[..|fields| - 1], fields[|fields| - 1];
      AssignmentsLineUp(init);
      OneMoreAssignment(SetList(Columns(init)), Targets(init), Assignments(init),
                        Separator(|fields| == 1), Column(last).value, Target(last));
      SetListOfSnoc(Columns(init), Column(last).value);
    }
  }

  lemma {:induction false} OneMoreAssignment(
      list: string, values: seq<Value>, filled: seq<Symbol>, separator: string, name: string, v: Value)
    requires Fill(list, values) == Some(filled) && '?' !in separator && Marks(name) == 0
    ensures Fill(list + (separator + name + " = ?"), values + [v])
         == Some(filled + Symbols(separator + name + " = ") + [Hole(v)])
  {
    OneAssignment(separator, name, v);
    FillOfSum(list, values, separator + name + " = ?", [v]);
    assert filled + (Symbols(separator + name + " = ") + [Hole(v)]) ==
           filled + Symbols(separator + name + " = ") + [Hole(v)];
  }

  lemma {:induction false} SetListOfSnoc(names: seq<string>, name: string)
    ensures SetList(names + [name]) == SetList(names) + (Separator(names == []) + name + " = ?")
  {
    assert (names + [name])[..|names|] == names;
  }

  lemma {:induction false} OneMark(v: Value)
    ensures Fill("?", [v]) == Some([Hole(v)])
  {
    var rest := Fill("?"[1..], [v][1..]);
    assert "?"[1..] == "" && [v][1..] == [];
    assert [Hole(v)] + rest.value == [Hole(v)];
  }

  lemma {:induction false} OneAssignment(separator: string, name: string, v: Value)
    requires '?' !in separator && Marks(name) == 0
    ensures Fill(separator + name + " = ?", [v]) == Some(Symbols(separator + name + " = ") + [Hole(v)])
  {
    PlainHasNoMarks(separator);
    PlainHasNoMarks(" = ");
    MarksOfSum(separator, name);
    MarksOfSum(separator + name, " = ");
    FillPlain(separator + name + " = ");
    OneMark(v);
    FillOfSum(separator + name + " = ", [], "?", [v]);
    assert separator + name + " = ?" == separator + name + " = " + "?";
    assert [] + [v] == [v];
  }

  // ---------------------------------------------------------------- finding the entity

  /** The structure the last outermost FROM of the expression is bound to. */
  function Found(exp: Expression, structs: map<Value, Entity>, before: Option<Entity>): Option<Entity>
    decreases exp, 1
  {
    match exp
    case PrefixedExp(prefix, after, _, binding) =>
      if prefix == "FROM" then
        if |binding| == 1 && binding[0] in structs then Some(structs[binding[0]]) else before
      else FoundAll(after, structs, before)
    case FieldExpression(_, afterField) =>
      if afterField.Some? then Found(afterField.value, structs, before) else before
  }

  function FoundAll(exps: seq<Expression>, structs: map<Value, Entity>, before: Option<Entity>): Option<Entity>
    decreases exps, 0
  {
    if exps == [] then before
    else Found(exps[|exps| - 1], structs, FoundAll(exps[..|exps| - 1], structs, before))
  }

  lemma {:induction false} NoFromKeeps(exp: Expression, structs: map<Value, Entity>, before: Option<Entity>)
    requires !HasFrom(exp)
    ensures Found(exp, structs, before) == before
    decreases exp, 1
  {
    match exp {
      case PrefixedExp(_, after, _, _) => NoFromsKeep(after, structs, before);
      case FieldExpression(_, afterField) =>
        if afterField.Some? {
          NoFromKeeps(afterField.value, structs, before);
        }
    }
  }

  lemma {:induction false} NoFromsKeep(exps: seq<Expression>, structs: map<Value, Entity>, before: Option<Entity>)
    requires forall e :: e in exps ==> !HasFrom(e)
    ensures FoundAll(exps, structs, before) == before
    decreases exps, 0
  {
    if exps != [] {
      NoFromsKeep(exps[..|exps| - 1], structs, before);
      NoFromKeeps(exps[|exps| - 1], structs, before);
    }
  }

  lemma {:induction false} FoundInSum(
      xs: seq<Expression>, ys: seq<Expression>, structs: map<Value, Entity>, before: Option<Entity>)
    ensures FoundAll(xs + ys, structs, before) == FoundAll(ys, structs, FoundAll(xs, structs, before))
  {
    if ys == [] {
      assert xs + ys == xs;
    } else {
      assert (xs + ys)[..|xs + ys| - 1] == xs + ys[..|ys| - 1];
      FoundInSum(xs, ys[..|ys| - 1], structs, before);
    }
  }

  /** The structure is that of the last FROM of a list, whatever is before it; FROMs inside a FROM do not count. */
  lemma {:induction false} LastFromIsFound(
      xs: seq<Expression>, v: Value, inner: Expression, ys: seq<Expression>, structs: map<Value, Entity>,
      before: Option<Entity>)
    requires v in structs && forall e :: e in ys ==> !HasFrom(e)
    ensures FoundAll(xs + [FROM(v, inner)] + ys, structs, before) == Some(structs[v])
  {
    FoundInSum(xs + [FROM(v, inner)], ys, structs, before);
    FoundInSum(xs, [FROM(v, inner)], structs, before);
    NoFromsKeep(ys, structs, Some(structs[v]));
  }

  /** query.go:287-308; structs says which bound values are structures. */
  class FindEntityVisitor {
    const structs: map<Value, Entity>
    var entity: Option<Entity>

    constructor (structs: map<Value, Entity>)
      ensures this.structs == structs && entity == None
    {
      this.structs := structs;
      entity := None;
    }

    method Accept(exp: Expression)
      modifies this
      ensures entity == Found(exp, structs, old(entity))
      decreases exp, 1
    {
      match exp {
        case PrefixedExp(prefix, after, _, binding) =>
          if prefix == "FROM" {
            if |binding| == 1 && binding[0] in structs {
              entity := Some(structs[binding[0]]);
            }
          } else {
            AcceptAll(after);
          }
        case FieldExpression(_, afterField) =>
          if afterField.Some? {
            Accept(afterField.value);
          }
      }
    }

    method AcceptAll(exps: seq<Expression>)
      modifies this
      ensures entity == FoundAll(exps, structs, old(entity))
      decreases exps, 0
    {
      for i := 0 to |exps|
        invariant entity == FoundAll(exps[..i], structs, old(entity))
      {
        assert exps[..i + 1][..i] == exps[..i];
        Accept(exps[i]);
      }
      assert exps[..|exps|] == exps;
    }
  }

  /** The text and bindings of a statement whose entity is found in its own FROM. */
  function SelfRendered(exp: Expression, structs: map<Value, Entity>): Piece {
    Rendered(exp, Found(exp, structs, None))
  }

  /** query.go:73-81; a FROM without a structure panics in EntityTableName. */
  method ExpToString(exp: Expression, structs: map<Value, Entity>)
    returns (text: string, bindings: seq<Value>, err: Option<Error>)
    requires HasFrom(exp) ==> Found(exp, structs, None).Some?
    ensures Piece(text, bindings, err) == SelfRendered(exp, structs)
    ensures InPlace(exp) && PlainNames(Found(exp, structs, None)) ==>
              Fill(text, bindings) == Some(Template(exp, Found(exp, structs, None)))
  {
    var findEntity := new FindEntityVisitor(structs);
    findEntity.Accept(exp);
    var stringer := new ToStringVisitor(findEntity.entity);
    stringer.Accept(exp);
    ThenAssociates(SelfRendered(exp, structs), NOTHING, NOTHING);
    assert stringer.AsPiece() == SelfRendered(exp, structs);
    text, bindings, err := stringer.generated, stringer.binding, stringer.lastError;
    if InPlace(exp) && PlainNames(Found(exp, structs, None)) {
      PlaceholdersLineUp(exp, Found(exp, structs, None));
    }
  }

  /**
   cassa_broker_impl.go:70-76. Unlike Put, a Delete whose fields cannot all be resolved is not executed;
   what is executed lines up.
   */
  method Delete(fromWhere: Expression, structs: map<Value, Entity>)
    returns (executed: Option<(string, seq<Value>)>, err: Option<Error>)
    requires HasFrom(fromWhere) ==> Found(fromWhere, structs, None).Some?
    ensures err == SelfRendered(fromWhere, structs).error
    ensures executed.Some? <==> err == None
    ensures executed.Some? <==> AllResolve(fromWhere, Found(fromWhere, structs, None))
    ensures executed.Some? && InPlace(fromWhere) && PlainNames(Found(fromWhere, structs, None)) ==>
              Fill(executed.value.0, executed.value.1) ==
              Some(Symbols("DELETE") + Template(fromWhere, Found(fromWhere, structs, None)))
  {
    var statement, bindings;
    statement, bindings, err := ExpToString(fromWhere, structs);
    ErrorFreeIff(fromWhere, Found(fromWhere, structs, None));
    if err != None {
      return None, err;
    }
    if Fill(statement, bindings).Some? {
      PlainHasNoMarks("DELETE");
      FillPlain("DELETE");
      FillOfSum("DELETE", [], statement, bindings);
      assert [] + bindings == bindings;
    }
    return Some(("DELETE" + statement, bindings)), None;
  }

  // ---------------------------------------------------------------- SELECT

  function ColumnList(names: seq<string>): string {
    if names == [] then ""
    else ColumnList(names[..|names| - 1]) + Separator(|names| == 1) + names[|names| - 1]
  }

  lemma {:induction false} ColumnListNext(names: seq<string>, i: nat)
    requires i < |names|
    ensures ColumnList(names[..i + 1]) ==
            (if i == 0 then ColumnList(names[..i]) else ColumnList(names[..i]) + ", ") + names[i]
  {
    assert names[..i + 1][..i] == names[..i];
  }

  /** query.go:197-215. */
  method SelectFields(val: seq<FieldDesc>) returns (statement: string)
    ensures statement == ColumnList(Columns(Kept(val, [CqlExported])))
  {
    var fields := ListExportedFields(val, [CqlExported]);
    var names := ColumnsOf(fields);
    statement := "";
    var first := true;
    for i := 0 to |names|
      invariant first <==> i == 0
      invariant statement == ColumnList(names[..i])
    {
      ColumnListNext(names, i);
      if first {
        first := false;
      } else {
        statement := statement + ", ";
      }
      statement := statement + names[i];
    }
    assert names[..|names|] == names;
  }

  predicate Contains(s: string, part: string) {
    exists i :: 0 <= i <= |s| - |part| && At(s, i, part)
  }

  predicate At(s: string, i: nat, part: string) {
    i + |part| <= |s| && s[i..i + |part|] == part
  }

  function Filtering(where: string): string {
    if Contains(where, "AND") then " ALLOW FILTERING" else ""
  }

  /** query.go:50-70. */
  method SelectExpToString(fromWhere: Expression, structs: map<Value, Entity>)
    returns (sqlStr: string, bindings: seq<Value>)
    requires Found(fromWhere, structs, None).Some?
    ensures var entity, piece := Found(fromWhere, structs, None), SelfRendered(fromWhere, structs);
            sqlStr == SelectHead(entity.value) + piece.text + Filtering(piece.text) && bindings == piece.binding
    ensures InPlace(fromWhere) && PlainNames(Found(fromWhere, structs, None)) ==> Fill(sqlStr, bindings).Some?
  {
    var findEntity := new FindEntityVisitor(structs);
    findEntity.Accept(fromWhere);
    var fromWhereStr := new ToStringVisitor(findEntity.entity);
    fromWhereStr.Accept(fromWhere);
    ThenAssociates(SelfRendered(fromWhere, structs), NOTHING, NOTHING);
    assert fromWhereStr.AsPiece() == SelfRendered(fromWhere, structs);
    var fieldsStr := SelectFields(findEntity.entity.value.fields);
    var whereStr := fromWhereStr.generated;
    if Contains(whereStr, "AND") {
      whereStr := whereStr + " ALLOW FILTERING";
    }
    bindings := fromWhereStr.binding;
    sqlStr := "SELECT " + fieldsStr + whereStr;
    if InPlace(fromWhere) && PlainNames(Found(fromWhere, structs, None)) {
      SelectLinesUp(fromWhere, findEntity.entity.value);
    }
  }

  function SelectHead(entity: Entity): string {
    "SELECT " + ColumnList(Columns(Kept(entity.fields, [CqlExported])))
  }

  /** A SELECT lines up as well. */
  lemma {:induction false} SelectLinesUp(fromWhere: Expression, entity: Entity)
    requires InPlace(fromWhere) && PlainNames(Some(entity))
    ensures var piece := Rendered(fromWhere, Some(entity));
            Fill(SelectHead(entity) + piece.text + Filtering(piece.text), piece.binding) ==
            Some(Symbols(SelectHead(entity)) + Template(fromWhere, Some(entity)) + Symbols(Filtering(piece.text)))
  {
    var piece := Rendered(fromWhere, Some(entity));
    SelectHeadIsPlain(entity);
    PlaceholdersLineUp(fromWhere, Some(entity));
    FillBetween(SelectHead(entity), piece.text, piece.binding, Filtering(piece.text));
  }

  /** Text without placeholders on both sides of a statement leaves its bindings alone. */
  lemma {:induction false} FillBetween(head: string, text: string, binding: seq<Value>, tail: string)
    requires Marks(head) == 0 && Fill(text, binding).Some? && '?' !in tail
    ensures Fill(head + text + tail, binding) == Some(Symbols(head) + Fill(text, binding).value + Symbols(tail))
  {
    PlainHasNoMarks(tail);
    FillPlain(head);
    FillPlain(tail);
    FillOfSum(head, [], text, binding);
    FillOfSum(head + text, [] + binding, tail, []);
    assert [] + binding + [] == binding;
  }

  lemma {:induction false} SelectHeadIsPlain(entity: Entity)
    requires PlainNames(Some(entity))
    ensures Marks(SelectHead(entity)) == 0
  {
    var kept := Kept(entity.fields, [CqlExported]);
    KeptHaveColumns(entity.fields);
    forall f | f in kept
      ensures Marks(Column(f).value) == 0
    {
      KeptExactly(entity.fields, [CqlExported], f);
    }
    ColumnListIsPlain(kept);
    PlainHasNoMarks("SELECT ");
    MarksOfSum("SELECT ", ColumnList(Columns(kept)));
  }

  lemma {:induction false} ColumnListIsPlain(fields: seq<FieldDesc>)
    requires forall f :: f in fields ==> Column(f).Some? && Marks(Column(f).value) == 0
    ensures Marks(ColumnList(Columns(fields))) == 0
  {
    if fields != [] {
      var init, last := fields[..|fields| - 1], fields[|fields| - 1];
      ColumnListIsPlain(init);
      var names := Columns(fields);
      assert names[..|names| - 1] == Columns(init);
      PlainHasNoMarks(Separator(|names| == 1));
      MarksOfSum(ColumnList(Columns(init)), Separator(|names| == 1));
      MarksOfSum(ColumnList(Columns(init)) + Separator(|names| == 1), Column(last).value);
    }
  }
}
