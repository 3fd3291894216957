/**
 The grammar of conditions that the rendered text is read by: comparisons and IN lists over columns, joined by AND
 and OR under the precedence of SQL, with parentheses.  It is a recursive descent over characters, in two dialects:
 one spells the comparisons as the renderer does, the other as SQL does.  The lemmas say how each construct is
 read back, whatever follows it.
 */
module CqlGrammar {
  import opened Wrappers
  import opened SqlExpression

  /** How the operators are spelled: as the renderer writes them, or as SQL and CQL have them. */
  datatype Dialect = AsWritten | Usual

  function Token(d: Dialect, op: Operator): string {
    if d == AsWritten then Spelling(op)
    else match op
      case EQ => " = "
      case GT => " > "
      case GTE => " >= "
      case LT => " < "
      case LTE => " <= "
  }

  /** The operator is spelled in the dialect as the renderer writes it. */
  predicate Spoken(d: Dialect, op: Operator) {
    d == Usual ==> op != GTE && op != LTE
  }

  predicate IsNameChar(c: char) {
    'a' <= c <= 'z' || 'A' <= c <= 'Z' || '0' <= c <= '9' || c == '_'
  }

  predicate IsName(s: string) {
    s != "" && forall i :: 0 <= i < |s| ==> IsNameChar(s[i])
  }

  // ---------------------------------------------------------------- the parser

  /** A parsed condition: columns compared with placeholders, which hold no values. */
  datatype Parsed =
    | PCompare(column: string, op: Operator)
    | PAmong(column: string, marks: nat)
    | PNested(j: Junction, operands: seq<Parsed>)

  /** What is left of a text after a token it starts with. */
  function Eat(token: string, s: string): Option<string> {
    if token <= s then Some(s[|token|..]) else None
  }

  /** The longest prefix of name characters. */
  function NameLength(s: string): (n: nat)
    ensures n <= |s|
  {
    if s != "" && IsNameChar(s[0]) then 1 + NameLength(s[1..]) else 0
  }

  /** A list ?,?,...,?) and what follows it. */
  function ParseMarks(s: string): (r: Option<(nat, string)>)
    ensures r.Some? ==> |r.value.1| < |s|
  {
    if Eat("?)", s).Some? then Some((1, Eat("?)", s).value))
    else if Eat("?,", s).Some? then
      var rest := ParseMarks(Eat("?,", s).value);
      if rest == None then None else Some((1 + rest.value.0, rest.value.1))
    else None
  }

  function ParseOperator(d: Dialect, s: string): (r: Option<(Operator, string)>)
    ensures r.Some? ==> |r.value.1| < |s|
  {
    if Eat(Token(d, EQ) + "?", s).Some? then Some((EQ, Eat(Token(d, EQ) + "?", s).value))
    else if Eat(Token(d, GT) + "?", s).Some? then Some((GT, Eat(Token(d, GT) + "?", s).value))
    else if Eat(Token(d, GTE) + "?", s).Some? then Some((GTE, Eat(Token(d, GTE) + "?", s).value))
    else if Eat(Token(d, LT) + "?", s).Some? then Some((LT, Eat(Token(d, LT) + "?", s).value))
    else if Eat(Token(d, LTE) + "?", s).Some? then Some((LTE, Eat(Token(d, LTE) + "?", s).value))
    else None
  }

  function ParseAtom(d: Dialect, s: string): (r: Option<(Parsed, string)>)
    ensures r.Some? ==> |r.value.1| < |s|
  {
    var n := NameLength(s);
    var column, rest := s[..n], s[n..];
    if n == 0 then None
    else if ParseOperator(d, rest).Some? then
      Some((PCompare(column, ParseOperator(d, rest).value.0), ParseOperator(d, rest).value.1))
    else if Eat(" IN(", rest).Some? then
      var marks := ParseMarks(Eat(" IN(", rest).value);
      if marks == None then None else Some((PAmong(column, marks.value.0), marks.value.1))
    else None
  }

  /** An atom, or anything in parentheses. */
  function ParsePrimary(d: Dialect, s: string): (r: Option<(Parsed, string)>)
    ensures r.Some? ==> |r.value.1| < |s|
    decreases |s|, 0
  {
    if Eat("(", s).Some? then
      var inside := ParseChain(d, OR, Eat("(", s).value);
      if inside == None || Eat(")", inside.value.1) == None then None
      else Some((inside.value.0, Eat(")", inside.value.1).value))
    else ParseAtom(d, s)
  }

  /** An operand of OR is a chain of AND, an operand of AND is a primary. */
  function ParseOperand(d: Dialect, j: Junction, s: string): (r: Option<(Parsed, string)>)
    ensures r.Some? ==> |r.value.1| < |s|
    decreases |s|, if j == AND then 1 else 4
  {
    if j == AND then ParsePrimary(d, s) else ParseChain(d, AND, s)
  }

  function ParseOperands(d: Dialect, j: Junction, s: string): (r: Option<(seq<Parsed>, string)>)
    ensures r.Some? ==> |r.value.1| < |s| && r.value.0 != []
    decreases |s|, if j == AND then 2 else 5
  {
    var first := ParseOperand(d, j, s);
    if first == None then None
    else if Eat(Keyword(j), first.value.1) == None then Some(([first.value.0], first.value.1))
    else
      var more := ParseOperands(d, j, Eat(Keyword(j), first.value.1).value);
      if more == None then None else Some(([first.value.0] + more.value.0, more.value.1))
  }

  function ParseChain(d: Dialect, j: Junction, s: string): (r: Option<(Parsed, string)>)
    ensures r.Some? ==> |r.value.1| < |s|
    decreases |s|, if j == AND then 3 else 6
  {
    var operands := ParseOperands(d, j, s);
    if operands == None then None
    else if |operands.value.0| == 1 then Some((operands.value.0[0], operands.value.1))
    else Some((PNested(j, operands.value.0), operands.value.1))
  }

  /** A whole condition. */
  function Parse(d: Dialect, s: string): Option<Parsed> {
    var r := ParseChain(d, OR, s);
    if r.Some? && r.value.1 == "" then Some(r.value.0) else None
  }

  lemma {:induction false} Eats(token: string, tail: string)
    ensures Eat(token, token + tail) == Some(tail)
  {
    assert (token + tail)[|token|..] == tail;
  }

  lemma {:induction false} EatsNot(token: string, s: string, i: nat)
    requires i < |token| && (i < |s| ==> token[i] != s[i])
    ensures Eat(token, s) == None
  {
    assert !(token <= s);
  }

  lemma {:induction false} ReadsName(name: string, rest: string)
    requires forall i :: 0 <= i < |name| ==> IsNameChar(name[i])
    requires rest != "" ==> !IsNameChar(rest[0])
    ensures NameLength(name + rest) == |name|
  {
    if name == "" {
      assert name + rest == rest;
    } else {
      assert (name + rest)[1..] == name[1..] + rest;
      ReadsName(name[1..], rest);
    }
  }

  /** The first character in which the spellings differ settles which operator it is. */
  lemma {:induction false} ReadsOperator(d: Dialect, op: Operator, tail: string)
    ensures ParseOperator(d, Spelling(op) + "?" + tail) == if Spoken(d, op) then Some((op, tail)) else None
  {
    var s := Spelling(op) + "?" + tail;
    Eats(Spelling(op) + "?", tail);
    forall other: Operator | Token(d, other) != Spelling(op)
      ensures Eat(Token(d, other) + "?", s) == None
    {
      EatsNot(Token(d, other) + "?", s, if Token(d, other)[1] != Spelling(op)[1] then 1 else 2);
    }
  }

  lemma {:induction false} RefsFront(n: nat)
    requires n > 0
    ensures Refs(n) == ",?" + Refs(n - 1)
  {
    if n > 1 {
      RefsFront(n - 1);
      assert ",?" + Refs(n - 2) + ",?" == ",?" + (Refs(n - 2) + ",?");
    }
  }

  lemma {:induction false} ReadsMarks(n: nat, tail: string)
    requires n > 0
    ensures ParseMarks(Refs(n)[1..] + ")" + tail) == Some((n, tail))
    decreases n
  {
    var s := Refs(n)[1..] + ")" + tail;
    RefsFront(n);
    if n == 1 {
      assert s == "?)" + tail;
      Eats("?)", tail);
    } else {
      RefsFront(n - 1);
      var rest := Refs(n - 1)[1..] + ")" + tail;
      assert s == "?," + rest;
      EatsNot("?)", s, 1);
      Eats("?,", rest);
      ReadsMarks(n - 1, tail);
    }
  }

  lemma {:induction false} ReadsComparison(d: Dialect, name: string, op: Operator, tail: string)
    requires IsName(name)
    ensures ParsePrimary(d, name + (Spelling(op) + "?") + tail) ==
            if Spoken(d, op) then Some((PCompare(name, op), tail)) else None
  {
    var rest := Spelling(op) + "?" + tail;
    var s := name + (Spelling(op) + "?") + tail;
    assert s == name + rest;
    assert rest[0] == ' ';
    ReadsName(name, rest);
    assert s[..|name|] == name && s[|name|..] == rest;
    ReadsOperator(d, op, tail);
    EatsNot(" IN(", rest, 1);
    EatsNot("(", s, 0);
  }

  lemma {:induction false} ReadsIn(d: Dialect, name: string, n: nat, tail: string)
    requires IsName(name) && n > 0
    ensures ParsePrimary(d, name + (" IN(" + (Refs(n)[1..] + ")")) + tail) == Some((PAmong(name, n), tail))
  {
    var marks := Refs(n)[1..] + ")" + tail;
    var rest := " IN(" + marks;
    var s := name + (" IN(" + (Refs(n)[1..] + ")")) + tail;
    assert s == name + rest;
    ReadsName(name, rest);
    assert s[..|name|] == name && s[|name|..] == rest;
    forall op: Operator
      ensures Eat(Token(d, op) + "?", rest) == None
    {
      EatsNot(Token(d, op) + "?", rest, 1);
    }
    Eats(" IN(", marks);
    ReadsMarks(n, tail);
    EatsNot("(", s, 0);
  }

  /** Nothing that could continue the condition follows. */
  predicate Ends(tail: string) {
    Eat(Keyword(AND), tail) == None && Eat(Keyword(OR), tail) == None
  }

  /** A primary with no keyword after it is read the same at every level of precedence. */
  lemma {:induction false} ReadsAlone(d: Dialect, s: string, p: Parsed, tail: string)
    requires ParsePrimary(d, s) == Some((p, tail)) && Eat(Keyword(AND), tail) == None
    ensures ParseOperand(d, AND, s) == ParseChain(d, AND, s) == ParseOperand(d, OR, s) == Some((p, tail))
    ensures Eat(Keyword(OR), tail) == None ==> ParseChain(d, OR, s) == Some((p, tail))
  {
    assert ParseOperands(d, AND, s) == Some(([p], tail));
    assert ParseChain(d, AND, s) == Some((p, tail));
    assert ParseOperand(d, OR, s) == ParseChain(d, AND, s);
    if Eat(Keyword(OR), tail) == None {
      assert ParseOperands(d, OR, s) == Some(([p], tail));
    }
  }

  lemma {:induction false} EndsAtParenthesis(tail: string)
    ensures Ends(")" + tail)
  {
    EatsNot(Keyword(AND), ")" + tail, 0);
    EatsNot(Keyword(OR), ")" + tail, 0);
  }

  /** Operands joined by one keyword are one junction, also under the looser OR. */
  lemma {:induction false} ReadsChain(d: Dialect, s: string, j: Junction, operands: seq<Parsed>, tail: string)
    requires |operands| >= 2 && ParseOperands(d, j, s) == Some((operands, tail)) && Ends(tail)
    ensures ParseChain(d, OR, s) == Some((PNested(j, operands), tail))
  {
    assert ParseChain(d, j, s) == Some((PNested(j, operands), tail));
    if j == AND {
      assert ParseOperand(d, OR, s) == ParseChain(d, AND, s);
      assert ParseOperands(d, OR, s) == Some(([PNested(j, operands)], tail));
    }
  }

  lemma {:induction false} ReadsParentheses(
      d: Dialect, inside: string, j: Junction, operands: seq<Parsed>, tail: string)
    requires |operands| >= 2 && ParseOperands(d, j, inside + (")" + tail)) == Some((operands, ")" + tail))
    ensures ParsePrimary(d, "(" + (inside + ")") + tail) == Some((PNested(j, operands), tail))
  {
    var s := inside + (")" + tail);
    assert "(" + (inside + ")") + tail == "(" + s;
    Eats("(", s);
    EndsAtParenthesis(tail);
    ReadsChain(d, s, j, operands, ")" + tail);
    Eats(")", tail);
  }

  lemma {:induction false} ReadsFirstOperand(d: Dialect, j: Junction, s: string, p: Parsed, rest: string)
    requires ParsePrimary(d, s) == Some((p, Keyword(j) + rest))
    ensures ParseOperand(d, j, s) == Some((p, Keyword(j) + rest))
  {
    if j == OR {
      EatsNot(Keyword(AND), Keyword(OR) + rest, 1);
      ReadsAlone(d, s, p, Keyword(OR) + rest);
    }
  }

  /** What follows an operand: a keyword, a closing parenthesis, or nothing. */
  predicate Calm(tail: string) {
    tail == "" || tail[0] == ' ' || tail[0] == ')'
  }

  /** There is no operand before a keyword or a closing parenthesis. */
  lemma {:induction false} NoOperand(d: Dialect, tail: string)
    requires Calm(tail)
    ensures ParsePrimary(d, tail) == None
  {
    EatsNot("(", tail, 0);
  }

  /** Without a primary nothing can be read, at any level of precedence. */
  lemma {:induction false} NothingReads(d: Dialect, s: string, j: Junction)
    requires ParsePrimary(d, s) == None
    ensures ParseOperand(d, j, s) == None && ParseOperands(d, j, s) == None && ParseChain(d, j, s) == None
  {
    assert ParseOperand(d, AND, s) == None;
    assert ParseOperands(d, AND, s) == None;
    assert ParseChain(d, AND, s) == None;
    assert ParseOperand(d, OR, s) == None;
  }

  /** Operands that cannot be read make a chain that cannot be read, also under the looser OR. */
  lemma {:induction false} NoChain(d: Dialect, s: string, j: Junction)
    requires ParseOperands(d, j, s) == None
    ensures ParseChain(d, OR, s) == None
  {
    if j == AND {
      assert ParseChain(d, AND, s) == None;
      assert ParseOperand(d, OR, s) == None;
      assert ParseOperands(d, OR, s) == None;
    }
  }

  lemma {:induction false} NoParentheses(d: Dialect, inside: string, j: Junction, tail: string)
    requires ParseOperands(d, j, inside + (")" + tail)) == None
    ensures ParsePrimary(d, "(" + (inside + ")") + tail) == None
  {
    var s := inside + (")" + tail);
    assert "(" + (inside + ")") + tail == "(" + s;
    Eats("(", s);
    NoChain(d, s, j);
  }
}
