/**
 The UPDATE that the tests of the Cassandra client expect for their structure User
 (db/sql/cassandra/cassa_put_test.go:26-46, cassa_data_test.go:46-52), letter by letter.  The structure has a key,
 two columns, an exported field without a column and an unexported one, so every branch of the field filters is
 taken once; the condition is the equality of the key with itself, as in the tests.  The fields have the
 addresses one to five.
 */
module CqlExample {
  import opened Wrappers
  import opened SqlExpression
  import opened CqlVisitor
  import opened StructFields
  import opened CqlStatements
  import opened CqlGrammar
  import opened CqlCondition
  import opened CqlPut

  const ID := FieldDesc("ID", "id", "id", Plain, 1, false, 0, 0)
  const FIRST_NAME := FieldDesc("FirstName", "first_name", "", Plain, 2, false, 0, 0)
  const LAST_NAME := FieldDesc("LastName", "last_name", "", Plain, 3, false, 0, 0)
  const NO_COLUMN := FieldDesc("ExportedButNotCql", "-", "", Plain, 4, false, 0, 0)
  const NOT_EXPORTED := FieldDesc("notExported", "", "", Plain, 5, false, 0, 0)

  const USER := Entity("User", [ID, FIRST_NAME, LAST_NAME, NO_COLUMN, NOT_EXPORTED])

  lemma {:induction false} KeptNext(fields: seq<FieldDesc>, field: FieldDesc)
    ensures var update := [CqlExported, FilterOutPK];
      Kept(fields + [field], update) == Kept(fields, update) + if IsSet(field) then [field] else []
  {
    assert (fields + [field])[..|fields|] == fields;
    PassesBoth(field);
  }

  lemma {:induction false} KeptOfThree(a: FieldDesc, b: FieldDesc, c: FieldDesc)
    requires !IsSet(a) && IsSet(b) && IsSet(c)
    ensures Kept([a, b, c], [CqlExported, FilterOutPK]) == [b, c]
  {
    KeptNext([], a);
    KeptNext([a], b);
    KeptNext([a, b], c);
    assert [] + [a] == [a] && [a] + [b] == [a, b] && [a, b] + [c] == [a, b, c];
  }

  lemma {:induction false} KeptOfFive(a: FieldDesc, b: FieldDesc, c: FieldDesc, d: FieldDesc, e: FieldDesc)
    requires !IsSet(a) && IsSet(b) && IsSet(c) && !IsSet(d) && !IsSet(e)
    ensures Kept([a, b, c, d, e], [CqlExported, FilterOutPK]) == [b, c]
  {
    KeptOfThree(a, b, c);
    KeptNext([a, b, c], d);
    KeptNext([a, b, c, d], e);
    assert [a, b, c] + [d] == [a, b, c, d] && [a, b, c, d] + [e] == [a, b, c, d, e];
  }

  lemma {:induction false} OfTwo(a: FieldDesc, b: FieldDesc)
    requires Column(a).Some? && Column(b).Some?
    ensures Columns([a, b]) == [Column(a).value, Column(b).value]
    ensures Targets([a, b]) == [Target(a), Target(b)]
  {
    ColumnsOfSnoc([], a);
    ColumnsOfSnoc([a], b);
    assert [] + [a] == [a] && [a] + [b] == [a, b];
  }

  lemma {:induction false} ListOfTwo(a: string, b: string)
    ensures SetList([a, b]) == a + " = ?" + ", " + b + " = ?"
  {
    assert [a, b][..1] == [a] && [a][..0] == [];
    assert SetList([a]) == a + " = ?";
  }

  /** The columns that are set, and the fields that are bound to them. */
  lemma {:induction false} UserSets()
    ensures Columns(SetFields(USER)) == ["first_name", "last_name"] && Targets(SetFields(USER)) == [2, 3]
  {
    assert !IsSet(ID) && !IsSet(NO_COLUMN) && !IsSet(NOT_EXPORTED);
    KeptOfFive(ID, FIRST_NAME, LAST_NAME, NO_COLUMN, NOT_EXPORTED);
    OfTwo(FIRST_NAME, LAST_NAME);
  }

  lemma {:induction false} UserCondition()
    ensures Text(Compare(1, EQ, 1), USER) == "id = ?" && Values(Compare(1, EQ, 1), USER) == [1]
  {
    assert FindField(1, USER.fields) == Some(ID);
    assert "id" + (Spelling(EQ) + "?") == "id = ?";
  }

  lemma {:induction false} UserHead()
    ensures Head(USER) == "UPDATE User SET first_name = ?, last_name = ? WHERE"
  {
    assert SetList(Columns(SetFields(USER))) == "first_name = ?, last_name = ?" by {
      UserSets();
      ListOfTwo("first_name", "last_name");
      UserListText();
    }
    UserHeadText(SetList(Columns(SetFields(USER))));
  }

  lemma {:induction false} UserHeadText(list: string)
    requires list == "first_name = ?, last_name = ?"
    ensures UpdateHead("User") + list + " WHERE" == "UPDATE User SET first_name = ?, last_name = ? WHERE"
  {
    assert UpdateHead("User") == "UPDATE User SET ";
    assert "UPDATE User SET " + list == "UPDATE User SET first_name = ?, last_name = ?";
  }

  lemma {:induction false} UserListText()
    ensures "first_name" + " = ?" + ", " + "last_name" + " = ?" == "first_name = ?, last_name = ?"
  {
    assert "first_name" + " = ?" == "first_name = ?";
    assert "first_name = ?" + ", " == "first_name = ?, ";
    assert "first_name = ?, " + "last_name" == "first_name = ?, last_name";
  }

  lemma {:induction false} UserText()
    ensures "UPDATE User SET first_name = ?, last_name = ? WHERE" + " " + "id = ?" ==
            "UPDATE User SET first_name = ?, last_name = ? WHERE id = ?"
  {
  }

  /** The statement, with the addresses of first_name, last_name and id bound to it. */
  lemma {:induction false} UserPut()
    ensures var put := PutStatement(FieldEQ(1), USER);
      && put.text == "UPDATE User SET first_name = ?, last_name = ? WHERE id = ?"
      && put.bindings == [2, 3, 1] && put.err == None
  {
    var c := Compare(1, EQ, 1);
    assert FieldEQ(1) == Build(c);
    PutStatementText(c, USER);
    RenderedCondition(c, USER);
    UserHead();
    UserCondition();
    UserText();
    UserSets();
  }
}
