/**
 db/sql/cassandra/query.go: the visitor that renders an expression tree to text and a list of bindings,
 and when it reports an error.
 */
module CqlVisitor {
  import opened Wrappers
  import opened SqlExpression

  /** reflect.Kind, as far as the code distinguishes; Collection is a slice, a channel or a map. */
  datatype Kind = Plain | Reference | Interface(holdsPointer: bool) | Collection

  /**
   A field of an entity: its name, its cql and pk tags, its kind, its address, and what it holds unless it
   is nil.  spare is what reflect.New gives for it.
   */
  datatype FieldDesc = FieldDesc(
    name: string, cql: string, pk: string, kind: Kind, pointer: Pointer, isNil: bool, content: Value, spare: Value)

  /** An entity: its table name (sql.EntityTableName) and its fields; field names are not empty. */
  datatype Entity = Entity(table: string, fields: seq<FieldDesc>)

  /** structs_reflection.go:75: the first character is not a lower-case letter. */
  predicate NameExported(name: string) {
    name != "" && !('a' <= name[0] <= 'z')
  }

  /** query.go:149-158. */
  predicate CqlExported(field: FieldDesc) {
    if |field.cql| > 0 then field.cql != "-" else true
  }

  /** query.go:161-170 and 187-194: the column of a field, if it has one. */
  function Column(field: FieldDesc): Option<string> {
    if !NameExported(field.name) then None
    else if |field.cql| > 0 then (if field.cql == "-" then None else Some(field.cql))
    else Some(field.name)
  }

  /** A field can be found by its address. */
  predicate Addressed(field: FieldDesc) {
    field.kind.Plain? || field.kind.Collection?
  }

  /**
   structs.FindField: the field a pointer points to.  A field that is itself a pointer or an interface is
   passed over: there the pointer is compared with the reflect.Value of the field, which it never equals.
   */
  function FindField(pointer: Pointer, fields: seq<FieldDesc>): (found: Option<FieldDesc>)
    ensures found.Some? ==> found.value in fields && found.value.pointer == pointer && Addressed(found.value)
    ensures found == None ==> forall f :: f in fields && f.pointer == pointer ==> !Addressed(f)
  {
    if fields == [] then None
    else if Addressed(fields[0]) && fields[0].pointer == pointer then Some(fields[0])
    else FindField(pointer, fields[1..])
  }

  datatype Error = ErrMissingVisitorEntity | ErrMissingEntityField | ErrUnexportedEntityField

  // ---------------------------------------------------------------- what a visit adds

  datatype Piece = Piece(text: string, binding: seq<Value>, error: Option<Error>) {
    function Then(next: Piece): Piece {
      Piece(text + next.text, binding + next.binding, if next.error.Some? then next.error else error)
    }
  }

  const NOTHING := Piece("", [], None)

  /** The column a field expression names, or the error that keeps it out of the text. */
  function Resolve(pointer: Pointer, entity: Option<Entity>): Piece {
    if entity == None then Piece("", [], Some(ErrMissingVisitorEntity))
    else
      var field := FindField(pointer, entity.value.fields);
      if field == None then Piece("", [], Some(ErrMissingEntityField))
      else if Column(field.value) == None then Piece("", [], Some(ErrUnexportedEntityField))
      else Piece(Column(field.value).value, [], None)
  }

  function Start(exp: Expression, entity: Option<Entity>): string
    requires exp.PrefixedExp?
  {
    if exp.prefix == "FROM" then " FROM " + (if entity.Some? then entity.value.table else "") else exp.prefix
  }

  function OwnBinding(exp: Expression): seq<Value>
    requires exp.PrefixedExp?
  {
    if exp.prefix == "FROM" then [] else exp.binding
  }

  function Rendered(exp: Expression, entity: Option<Entity>): Piece
    decreases exp, 1
  {
    match exp
    case PrefixedExp(_, after, suffix, _) =>
      Piece(Start(exp, entity), [], None).Then(RenderedAll(after, entity)).Then(Piece(suffix, OwnBinding(exp), None))
    case FieldExpression(pointer, afterField) =>
      var column := Resolve(pointer, entity);
      if column.error.Some? || afterField == None then column
      else column.Then(Rendered(afterField.value, entity))
  }

  function RenderedAll(exps: seq<Expression>, entity: Option<Entity>): Piece
    decreases exps, 0
  {
    if exps == [] then NOTHING
    else RenderedAll(exps[..|exps| - 1], entity).Then(Rendered(exps[|exps| - 1], entity))
  }

  /** The pointer is that of a field with a column. */
  predicate Resolvable(pointer: Pointer, entity: Option<Entity>) {
    entity.Some? &&
    var field := FindField(pointer, entity.value.fields);
    field.Some? && Column(field.value).Some?
  }

  /** All fields of the expression have columns. */
  predicate AllResolve(exp: Expression, entity: Option<Entity>) {
    match exp
    case PrefixedExp(_, after, _, _) => forall e :: e in after ==> AllResolve(e, entity)
    case FieldExpression(pointer, afterField) =>
      Resolvable(pointer, entity) && (afterField.Some? ==> AllResolve(afterField.value, entity))
  }

  /**
   What becomes of a field expression: its column with what follows, or the error that says why there is none,
   and then nothing of what follows.
   */
  lemma {:induction false} FieldRendered(pointer: Pointer, afterField: Option<Expression>, entity: Option<Entity>)
    ensures var piece := Rendered(FieldExpression(pointer, afterField), entity);
      && (entity == None ==> piece == Piece("", [], Some(ErrMissingVisitorEntity)))
      && (entity.Some? && (forall f :: f in entity.value.fields && Addressed(f) ==> f.pointer != pointer) ==>
            piece == Piece("", [], Some(ErrMissingEntityField)))
      && (entity.Some? && FindField(pointer, entity.value.fields).Some? ==>
            var f := FindField(pointer, entity.value.fields).value;
            if NameExported(f.name) && f.cql != "-" then
              var column := Piece(if f.cql == "" then f.name else f.cql, [], None);
              piece == if afterField == None then column else column.Then(Rendered(afterField.value, entity))
            else piece == Piece("", [], Some(ErrUnexportedEntityField)))
  {
    assert entity.Some? ==> (FindField(pointer, entity.value.fields) == None <==>
      forall f :: f in entity.value.fields && Addressed(f) ==> f.pointer != pointer);
  }

  /** Rendering reports an error if and only if some field has no column. */
  lemma {:induction false} ErrorFreeIff(exp: Expression, entity: Option<Entity>)
    ensures Rendered(exp, entity).error == None <==> AllResolve(exp, entity)
    decreases exp, 1
  {
    match exp {
      case PrefixedExp(_, after, _, _) => AllErrorFreeIff(after, entity);
      case FieldExpression(pointer, afterField) =>
        if Resolvable(pointer, entity) && afterField.Some? {
          ErrorFreeIff(afterField.value, entity);
        }
    }
  }

  lemma {:induction false} AllErrorFreeIff(exps: seq<Expression>, entity: Option<Entity>)
    ensures RenderedAll(exps, entity).error == None <==> forall e :: e in exps ==> AllResolve(e, entity)
    decreases exps, 0
  {
    if exps != [] {
      var init, last := exps[..|exps| - 1], exps[|exps| - 1];
      assert exps == init + [last];
      AllErrorFreeIff(init, entity);
      ErrorFreeIff(last, entity);
    }
  }

  /** There is a FROM in the expression, whose table name needs an entity. */
  predicate HasFrom(exp: Expression) {
    match exp
    case PrefixedExp(prefix, after, _, _) => prefix == "FROM" || exists e :: e in after && HasFrom(e)
    case FieldExpression(_, afterField) => afterField.Some? && HasFrom(afterField.value)
  }

  // ---------------------------------------------------------------- the visitor

  class ToStringVisitor {
    const entity: Option<Entity>
    var generated: string
    var binding: seq<Value>
    var lastError: Option<Error>

    constructor (entity: Option<Entity>)
      ensures this.entity == entity && AsPiece() == NOTHING
    {
      this.entity := entity;
      generated, binding, lastError := "", [], None;
    }

    function AsPiece(): Piece
      reads this
    {
      Piece(generated, binding, lastError)
    }

    method Accept(exp: Expression)
      requires HasFrom(exp) ==> entity.Some?
      modifies this
      decreases exp, 1
      ensures AsPiece() == old(AsPiece()).Then(Rendered(exp, entity))
    {
      match exp {
        case PrefixedExp(_, _, _, _) => VisitPrefixedExp(exp);
        case FieldExpression(_, _) => VisitFieldExpression(exp);
      }
    }

    /** query.go:101-122. */
    method VisitPrefixedExp(exp: Expression)
      requires exp.PrefixedExp? && (HasFrom(exp) ==> entity.Some?)
      modifies this
      decreases exp, 0
      ensures AsPiece() == old(AsPiece()).Then(Rendered(exp, entity))
    {
      ghost var before := AsPiece();
      if exp.prefix == "FROM" {
        generated := generated + (" FROM " + entity.value.table);
      } else {
        generated := generated + exp.prefix;
      }
      assert AsPiece() == before.Then(Piece(Start(exp, entity), [], None));
      assert exp.prefix != "FROM" ==> forall e :: e in exp.after && HasFrom(e) ==> HasFrom(exp);
      AcceptAll(exp.after);
      WriteEnd(exp);
      PrefixedAssociates(before, Piece(Start(exp, entity), [], None), RenderedAll(exp.after, entity),
                         Piece(exp.suffix, OwnBinding(exp), None));
    }

    /** query.go:108-112. */
    method AcceptAll(exps: seq<Expression>)
      requires (exists e :: e in exps && HasFrom(e)) ==> entity.Some?
      modifies this
      decreases exps, 0
      ensures AsPiece() == old(AsPiece()).Then(RenderedAll(exps, entity))
    {
      ghost var start := AsPiece();
      ThenAssociates(start, start, start);
      for i := 0 to |exps|
        invariant AsPiece() == start.Then(RenderedAll(exps[..i], entity))
      {
        assert exps[..i + 1][..i] == exps[..i];
        ThenAssociates(start, RenderedAll(exps[..i], entity), Rendered(exps[i], entity));
        assert exps[i] in exps;
        Accept(exps[i]);
      }
      assert exps[..|exps|] == exps;
    }

    /** query.go:113-121. */
    method WriteEnd(exp: Expression)
      requires exp.PrefixedExp?
      modifies this
      ensures AsPiece() == old(AsPiece()).Then(Piece(exp.suffix, OwnBinding(exp), None))
    {
      generated := generated + exp.suffix;
      if exp.prefix != "FROM" && |exp.binding| > 0 {
        binding := binding + exp.binding;
      }
    }

    /** query.go:125-146: a field that cannot be resolved leaves the expression after it unvisited. */
    method VisitFieldExpression(exp: Expression)
      requires exp.FieldExpression? && (HasFrom(exp) ==> entity.Some?)
      modifies this
      decreases exp, 0
      ensures AsPiece() == old(AsPiece()).Then(Rendered(exp, entity))
    {
      if entity == None {
        lastError := Some(ErrMissingVisitorEntity);
      } else {
        var field := FindField(exp.pointer, entity.value.fields);
        if field == None {
          lastError := Some(ErrMissingEntityField);
          return;
        }
        var fieldName := Column(field.value);
        if fieldName == None {
          lastError := Some(ErrUnexportedEntityField);
          return;
        }
        generated := generated + fieldName.value;
        if exp.afterField.Some? {
          Accept(exp.afterField.value);
        }
      }
    }
  }

  lemma {:induction false} PrefixedAssociates(before: Piece, start: Piece, inner: Piece, end: Piece)
    ensures before.Then(start).Then(inner).Then(end) == before.Then(start.Then(inner).Then(end))
  {
    ThenAssociates(before, start, inner);
    ThenAssociates(before, start.Then(inner), end);
  }

  lemma {:induction false} ThenAssociates(a: Piece, b: Piece, c: Piece)
    ensures a.Then(b).Then(c) == a.Then(b.Then(c))
    ensures a.Then(NOTHING) == a && NOTHING.Then(a) == a
  {
    assert a.text + b.text + c.text == a.text + (b.text + c.text);
    assert a.binding + b.binding + c.binding == a.binding + (b.binding + c.binding);
  }
}
