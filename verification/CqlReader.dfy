/**
 A reader of whole UPDATE and SELECT statements, which takes from the text alone the table, the columns that are
 set or selected, the text of the clause after WHERE, and whether filtering is allowed.  It knows nothing of the
 renderer, and so what it finds in a rendered statement is what anybody else would find there.
 */
module CqlReader {
  import opened Wrappers
  import opened SqlExpression
  import opened CqlVisitor
  import opened StructFields
  import opened CqlStatements
  import opened CqlGrammar

  predicate IsTableChar(c: char) {
    IsNameChar(c) || c == '.'
  }

  predicate IsTableName(s: string) {
    s != "" && forall i :: 0 <= i < |s| ==> IsTableChar(s[i])
  }

  /** The longest prefix of table characters. */
  function TableLength(s: string): (n: nat)
    ensures n <= |s|
  {
    if s != "" && IsTableChar(s[0]) then 1 + TableLength(s[1..]) else 0
  }

  /** A name with the suffix after it. */
  function ParseItem(suffix: string, s: string): (r: Option<(string, string)>)
    ensures r.Some? ==> |r.value.1| < |s|
  {
    var n := NameLength(s);
    if n == 0 || Eat(suffix, s[n..]) == None then None
    else Some((s[..n], Eat(suffix, s[n..]).value))
  }

  /** Such items, separated by commas. */
  function ParseItems(suffix: string, s: string): (r: Option<(seq<string>, string)>)
    ensures r.Some? ==> r.value.0 != []
    decreases |s|
  {
    var item := ParseItem(suffix, s);
    if item == None then None
    else if Eat(", ", item.value.1) == None then Some(([item.value.0], item.value.1))
    else
      var more := ParseItems(suffix, Eat(", ", item.value.1).value);
      if more == None then None else Some(([item.value.0] + more.value.0, more.value.1))
  }

  datatype Update = Update(table: string, columns: seq<string>, where: string)

  /** UPDATE table SET column = ?, ... WHERE clause. */
  function ReadUpdate(s: string): Option<Update> {
    if Eat("UPDATE ", s) == None then None
    else
      var rest := Eat("UPDATE ", s).value;
      var n := TableLength(rest);
      if n == 0 || Eat(" SET ", rest[n..]) == None then None
      else ReadSet(rest[..n], Eat(" SET ", rest[n..]).value)
  }

  function ReadSet(table: string, s: string): Option<Update> {
    var items := ParseItems(" = ?", s);
    if items == None || Eat(" WHERE ", items.value.1) == None then None
    else Some(Update(table, items.value.0, Eat(" WHERE ", items.value.1).value))
  }

  datatype Select = Select(columns: seq<string>, table: string, where: string, filtering: bool)

  const FILTERING := " ALLOW FILTERING"

  /** SELECT column, ... FROM table WHERE clause, with or without ALLOW FILTERING at the end. */
  function ReadSelect(s: string): Option<Select> {
    if Eat("SELECT ", s) == None then None
    else
      var items := ParseItems("", Eat("SELECT ", s).value);
      if items == None || Eat(" FROM ", items.value.1) == None then None
      else ReadFrom(items.value.0, Eat(" FROM ", items.value.1).value)
  }

  function ReadFrom(columns: seq<string>, s: string): Option<Select> {
    var n := TableLength(s);
    if n == 0 || Eat(" WHERE ", s[n..]) == None then None
    else Some(ReadClause(columns, s[..n], Eat(" WHERE ", s[n..]).value))
  }

  function ReadClause(columns: seq<string>, table: string, s: string): Select {
    if EndsIn(s, FILTERING) then Select(columns, table, s[..|s| - |FILTERING|], true)
    else Select(columns, table, s, false)
  }

  predicate EndsIn(s: string, end: string) {
    |end| <= |s| && s[|s| - |end|..] == end
  }

  // ---------------------------------------------------------------- what is read

  lemma {:induction false} ReadsTable(table: string, rest: string)
    requires forall i :: 0 <= i < |table| ==> IsTableChar(table[i])
    requires rest != "" ==> !IsTableChar(rest[0])
    ensures TableLength(table + rest) == |table|
  {
    if table == "" {
      assert table + rest == rest;
    } else {
      assert (table + rest)[1..] == table[1..] + rest;
      ReadsTable(table[1..], rest);
    }
  }

  /** The items from the front. */
  function Items(suffix: string, names: seq<string>): string {
    if names == [] then ""
    else names[0] + (suffix + if |names| == 1 then "" else ", " + Items(suffix, names[1..]))
  }

  lemma {:induction false} ItemsOfSnoc(suffix: string, names: seq<string>, name: string)
    requires names != []
    ensures Items(suffix, names + [name]) == Items(suffix, names) + (", " + (name + suffix))
  {
    var last := ", " + (name + suffix);
    if |names| == 1 {
      assert (names + [name])[1..] == [name];
      assert suffix + "" == suffix;
    } else {
      assert (names + [name])[1..] == names[1..] + [name];
      assert (names + [name])[0] == names[0];
      ItemsOfSnoc(suffix, names[1..], name);
      assert names[0] + (suffix + (", " + (Items(suffix, names[1..]) + last))) ==
             names[0] + (suffix + (", " + Items(suffix, names[1..]))) + last;
    }
  }

  lemma {:induction false} Regrouped(a: string, b: string, c: string, d: string)
    ensures a + b + c + d == a + (b + (c + d))
  {
  }

  lemma {:induction false} SetListIsItems(names: seq<string>)
    ensures SetList(names) == Items(" = ?", names)
  {
    if |names| == 1 {
      assert names[..0] == [];
      assert "" + Separator(true) + names[0] + " = ?" == names[0] + (" = ?" + "");
    } else if names != [] {
      var init, last := names[..|names| - 1], names[|names| - 1];
      assert names == init + [last];
      SetListIsItems(init);
      ItemsOfSnoc(" = ?", init, last);
      Regrouped(SetList(init), ", ", last, " = ?");
    }
  }

  lemma {:induction false} ColumnListIsItems(names: seq<string>)
    ensures ColumnList(names) == Items("", names)
  {
    if |names| == 1 {
      assert names[..0] == [];
      assert "" + Separator(true) + names[0] == names[0] + ("" + "");
    } else if names != [] {
      var init, last := names[..|names| - 1], names[|names| - 1];
      assert names == init + [last];
      ColumnListIsItems(init);
      ItemsOfSnoc("", init, last);
      assert ColumnList(init) + ", " + last == ColumnList(init) + (", " + (last + ""));
    }
  }

  /** What may follow the items. */
  predicate EndsItems(suffix: string, tail: string) {
    Eat(", ", tail) == None && (suffix == "" ==> tail == "" || !IsNameChar(tail[0])) &&
    (suffix != "" ==> !IsNameChar(suffix[0]))
  }

  lemma {:induction false} ReadsItems(suffix: string, names: seq<string>, tail: string)
    requires names != [] && EndsItems(suffix, tail) && forall name :: name in names ==> IsName(name)
    ensures ParseItems(suffix, Items(suffix, names) + tail) == Some((names, tail))
    decreases names
  {
    var rest := names[1..];
    assert names == [names[0]] + rest;
    ItemsFront(suffix, names, tail);
    if rest == [] {
      assert names == [names[0]];
      OneItem(suffix, names[0], tail);
    } else {
      assert ParseItems(suffix, Items(suffix, rest) + tail) == Some((rest, tail)) by {
        ReadsItems(suffix, rest, tail);
      }
      OneMoreItem(suffix, names[0], Items(suffix, rest) + tail);
    }
  }

  lemma {:induction false} ItemsFront(suffix: string, names: seq<string>, tail: string)
    requires names != []
    ensures Items(suffix, names) + tail ==
            names[0] + (suffix + if |names| == 1 then tail else ", " + (Items(suffix, names[1..]) + tail))
  {
    var more := if |names| == 1 then "" else ", " + Items(suffix, names[1..]);
    assert names[0] + (suffix + more) + tail == names[0] + (suffix + (more + tail));
    if |names| > 1 {
      assert more + tail == ", " + (Items(suffix, names[1..]) + tail);
    } else {
      assert more + tail == tail;
    }
  }

  lemma {:induction false} OneItem(suffix: string, name: string, tail: string)
    requires IsName(name) && EndsItems(suffix, tail)
    ensures ParseItems(suffix, name + (suffix + tail)) == Some(([name], tail))
  {
    ReadsItem(suffix, name, tail);
  }

  lemma {:induction false} OneMoreItem(suffix: string, name: string, more: string)
    requires IsName(name) && (suffix != "" ==> !IsNameChar(suffix[0])) && ParseItems(suffix, more).Some?
    ensures ParseItems(suffix, name + (suffix + (", " + more)))
         == Some(([name] + ParseItems(suffix, more).value.0, ParseItems(suffix, more).value.1))
  {
    ReadsItem(suffix, name, ", " + more);
    Eats(", ", more);
  }

  lemma {:induction false} ReadsItem(suffix: string, name: string, after: string)
    requires IsName(name)
    requires if suffix == "" then after == "" || !IsNameChar(after[0]) else !IsNameChar(suffix[0])
    ensures ParseItem(suffix, name + (suffix + after)) == Some((name, after))
  {
    var s := name + (suffix + after);
    assert suffix == "" ==> suffix + after == after;
    ReadsName(name, suffix + after);
    assert s[..|name|] == name && s[|name|..] == suffix + after;
    Eats(suffix, after);
  }

  lemma {:induction false} ReadsUpdateHead(table: string, list: string)
    requires IsTableName(table)
    ensures ReadUpdate("UPDATE " + (table + (" SET " + list))) == ReadSet(table, list)
  {
    var rest := table + (" SET " + list);
    Eats("UPDATE ", rest);
    ReadsTable(table, " SET " + list);
    assert rest[..|table|] == table && rest[|table|..] == " SET " + list;
    Eats(" SET ", list);
  }

  lemma {:induction false} UpdateIsItems(table: string, names: seq<string>, rest: string)
    ensures UpdateText(table, names) + rest == "UPDATE " + (table + (" SET " + (Items(" = ?", names) + rest)))
  {
    SetListIsItems(names);
  }

  lemma {:induction false} ReadsUpdate(table: string, names: seq<string>, where: string)
    requires IsTableName(table) && names != [] && forall name :: name in names ==> IsName(name)
    ensures ReadUpdate(UpdateText(table, names) + (" WHERE " + where)) == Some(Update(table, names, where))
  {
    UpdateIsItems(table, names, " WHERE " + where);
    ReadsUpdateHead(table, Items(" = ?", names) + (" WHERE " + where));
    EatsNot(", ", " WHERE " + where, 0);
    ReadsItems(" = ?", names, " WHERE " + where);
    Eats(" WHERE ", where);
  }

  /** Without an assignment, or without anything after WHERE, it is no UPDATE. */
  lemma {:induction false} UnreadUpdate(table: string, names: seq<string>, rest: string)
    requires IsTableName(table) && (names == [] || rest == " WHERE")
    requires rest != "" && rest[0] == ' '
    requires forall name :: name in names ==> IsName(name)
    ensures ReadUpdate(UpdateText(table, names) + rest) == None
  {
    UpdateIsItems(table, names, rest);
    ReadsUpdateHead(table, Items(" = ?", names) + rest);
    if names == [] {
      assert Items(" = ?", names) + rest == rest;
    } else {
      EatsNot(", ", rest, 0);
      ReadsItems(" = ?", names, rest);
    }
  }

  lemma {:induction false} ReadsFrom(columns: seq<string>, table: string, clause: string)
    requires IsTableName(table)
    ensures ReadFrom(columns, table + (" WHERE " + clause)) == Some(ReadClause(columns, table, clause))
  {
    var from := table + (" WHERE " + clause);
    ReadsTable(table, " WHERE " + clause);
    assert from[..|table|] == table && from[|table|..] == " WHERE " + clause;
    Eats(" WHERE ", clause);
  }

  lemma {:induction false} ReadsClause(columns: seq<string>, table: string, where: string, filtering: bool)
    requires !EndsIn(where, FILTERING)
    ensures ReadClause(columns, table, where + if filtering then FILTERING else "")
         == Select(columns, table, where, filtering)
  {
    var clause := where + if filtering then FILTERING else "";
    if filtering {
      assert clause[|clause| - |FILTERING|..] == FILTERING;
      assert clause[..|clause| - |FILTERING|] == where;
    } else {
      assert clause == where;
    }
  }

  lemma {:induction false} ReadsSelect(names: seq<string>, table: string, where: string, filtering: bool)
    requires IsTableName(table) && names != [] && forall name :: name in names ==> IsName(name)
    requires !EndsIn(where, FILTERING)
    ensures ReadSelect("SELECT " + (ColumnList(names) + (" FROM " + (table + (" WHERE " +
                       (where + if filtering then FILTERING else ""))))))
         == Some(Select(names, table, where, filtering))
  {
    var clause := where + if filtering then FILTERING else "";
    var from := table + (" WHERE " + clause);
    ColumnListIsItems(names);
    Eats("SELECT ", Items("", names) + (" FROM " + from));
    EatsNot(", ", " FROM " + from, 0);
    ReadsItems("", names, " FROM " + from);
    Eats(" FROM ", from);
    ReadsFrom(names, table, clause);
    ReadsClause(names, table, where, filtering);
  }

  /** Without a column it is no SELECT. */
  lemma {:induction false} UnreadSelect(rest: string)
    requires rest != "" && rest[0] == ' '
    ensures ReadSelect("SELECT " + rest) == None
  {
    Eats("SELECT ", rest);
  }
}
