/** Parsing CREATE TABLE, from a token stream to the table, and printing it back. */
module Parsers {
  import opened StorageTypes
  import HeapRows
  import opened Lexers

  datatype ParseError = OutOfTokens | Expected(what: string) | BadType | NoGrammar

  type ColumnType = HeapRows.ColumnType
  datatype Column = Column(name: string, kind: ColumnType)

  /** What a statement parses to; queries and inserts are told apart but not taken further. */
  datatype Statement = CreateTable(name: string, columns: seq<Column>) | CreateSchema(schema: string) | Query

  function TypeOf(w: string): (r: Option<ColumnType>)
    ensures r.Some? <==> w in {"STRING", "string", "INT", "int", "FLOAT", "float"}
  {
    if w == "STRING" || w == "string" then Some(HeapRows.StringCol)
    else if w == "INT" || w == "int" then Some(HeapRows.IntCol)
    else if w == "FLOAT" || w == "float" then Some(HeapRows.FloatCol)
    else None
  }

  // ---------- the grammar as functions of the tokens ----------

  type Parsed<T> = Result<(T, nat), ParseError>

  function TokenAt(ts: seq<Token>, i: nat): Result<Token, ParseError> {
    if i < |ts| then Success(ts[i]) else Failure(OutOfTokens)
  }

  /** The columns from the one whose name is at i, up to the closing parenthesis. */
  function Columns(ts: seq<Token>, i: nat): Parsed<seq<Column>>
    decreases |ts| - i
  {
    if i >= |ts| then Failure(OutOfTokens)
    else if ts[i].kind != IDENT then Failure(Expected("column name"))
    else if i + 1 >= |ts| then Failure(OutOfTokens)
    else if TypeOf(ts[i + 1].text).None? then Failure(BadType)
    else if i + 2 >= |ts| then Failure(OutOfTokens)
    else
      var c := Column(ts[i].text, TypeOf(ts[i + 1].text).value);
      if ts[i + 2].text == ")" then Success(([c], i + 3))
      else if ts[i + 2].text != "," then Failure(Expected(", or )"))
      else Prefixed([c], Columns(ts, i + 3))
  }

  function Prefixed(columns: seq<Column>, r: Parsed<seq<Column>>): Parsed<seq<Column>> {
    match r
    case Failure(e) => Failure(e)
    case Success((cs, next)) => Success((columns + cs, next))
  }

  lemma PrefixedTwice(columns: seq<Column>, c: Column, r: Parsed<seq<Column>>)
    ensures Prefixed([], r) == r
    ensures Prefixed(columns + [c], r) == Prefixed(columns, Prefixed([c], r))
  {
    if r.Success? {
      assert [] + r.value.0 == r.value.0;
      assert columns + [c] + r.value.0 == columns + ([c] + r.value.0);
    }
  }

  /** The table from the word TABLE at i. */
  function Table(ts: seq<Token>, i: nat): Parsed<Statement> {
    if i >= |ts| then Failure(OutOfTokens)
    else if ts[i].text != "TABLE" then Failure(Expected("TABLE"))
    else if i + 1 >= |ts| then Failure(OutOfTokens)
    else if ts[i + 1].kind != IDENT then Failure(Expected("table name"))
    else if i + 2 >= |ts| then Failure(OutOfTokens)
    else if ts[i + 2].text != "(" then Failure(Expected("("))
    else
      match Columns(ts, i + 3)
      case Failure(e) => Failure(e)
      case Success((cs, next)) => Success((CreateTable(ts[i + 1].text, cs), next))
  }

  /** A whole statement; whatever follows it is not looked at. */
  function Grammar(ts: seq<Token>): (r: Result<Statement, ParseError>)
    ensures r == Success(Query) <==> ts != [] && ts[0].text in {"SELECT", "INSERT"}
  {
    if ts == [] then Failure(OutOfTokens)
    else if ts[0].text == "SELECT" || ts[0].text == "INSERT" then Success(Query)
    else if ts[0].text != "CREATE" then Failure(NoGrammar)
    else if |ts| == 1 then Failure(OutOfTokens)
    else if ts[1].text == "SCHEMA" then (if |ts| == 2 then Failure(OutOfTokens) else Success(CreateSchema(ts[2].text)))
    else if ts[1].text == "TABLE" then
      match Table(ts, 1)
      case Failure(e) => Failure(e)
      case Success((s, _)) => Success(s)
    else Failure(NoGrammar)
  }

  // ---------- the parser as it runs ----------

  class TokenIterator {
    const tokens: seq<Token>
    var currIdx: nat

    constructor (query: string)
      ensures tokens == Split(query, 0, "") && currIdx == 0
    {
      var ts := WhitespaceSplit(query);
      tokens, currIdx := ts, 0;
    }

    method GetNext() returns (r: Result<Token, ParseError>)
      modifies this
      ensures r == TokenAt(tokens, old(currIdx))
      ensures currIdx == old(currIdx) + if r.Success? then 1 else 0
    {
      if currIdx < |tokens| {
        currIdx := currIdx + 1;
        return Success(tokens[currIdx - 1]);
      }
      return Failure(OutOfTokens);
    }

    method Peek(n: int) returns (r: Result<Token, ParseError>)
      ensures r == if 0 <= currIdx + n - 1 then TokenAt(tokens, currIdx + n - 1) else Failure(OutOfTokens)
    {
      var pos := currIdx + n - 1;
      if 0 <= pos < |tokens| {
        return Success(tokens[pos]);
      }
      return Failure(OutOfTokens);
    }
  }

  /** The columns and the closing parenthesis. */
  method ParseColumns(it: TokenIterator) returns (r: Result<seq<Column>, ParseError>)
    modifies it
    ensures match Columns(it.tokens, old(it.currIdx))
      case Failure(e) => r == Failure(e)
      case Success((cs, next)) => r == Success(cs) && it.currIdx == next
  {
    ghost var start := it.currIdx;
    var columns: seq<Column> := [];
    var next := it.GetNext();
    if next.Failure? {
      return Failure(next.error);
    }
    PrefixedTwice([], Column("", HeapRows.IntCol), Columns(it.tokens, start));
    while true
      invariant it.currIdx > start && it.currIdx <= |it.tokens| && next == Success(it.tokens[it.currIdx - 1])
      invariant Columns(it.tokens, start) == Prefixed(columns, Columns(it.tokens, it.currIdx - 1))
      decreases |it.tokens| - it.currIdx
    {
      if next.value.kind != IDENT {
        return Failure(Expected("column name"));
      }
      ghost var here, before := it.currIdx - 1, columns;
      var name := next.value.text;
      next := it.GetNext();
      if next.Failure? {
        return Failure(next.error);
      }
      var kind := TypeOf(next.value.text);
      if kind.None? {
        return Failure(BadType);
      }
      columns := columns + [Column(name, kind.value)];
      next := it.GetNext();
      if next.Failure? {
        return Failure(next.error);
      }
      if next.value.text == ")" {
        return Success(columns);
      }
      if next.value.text != "," {
        return Failure(Expected(", or )"));
      }
      PrefixedTwice(before, Column(name, kind.value), Columns(it.tokens, here + 3));
      next := it.GetNext();
      if next.Failure? {
        return Failure(next.error);
      }
    }
  }

  method ParseTable(it: TokenIterator) returns (r: Result<Statement, ParseError>)
    modifies it
    ensures match Table(it.tokens, old(it.currIdx))
      case Failure(e) => r == Failure(e)
      case Success((s, next)) => r == Success(s) && it.currIdx == next
  {
    var t := it.GetNext();
    if t.Failure? {
      return Failure(t.error);
    }
    if t.value.text != "TABLE" {
      return Failure(Expected("TABLE"));
    }
    var name := it.GetNext();
    if name.Failure? {
      return Failure(name.error);
    }
    if name.value.kind != IDENT {
      return Failure(Expected("table name"));
    }
    t := it.GetNext();
    if t.Failure? {
      return Failure(t.error);
    }
    if t.value.text != "(" {
      return Failure(Expected("("));
    }
    var columns := ParseColumns(it);
    match columns
    case Failure(e) => return Failure(e);
    case Success(cs) => return Success(CreateTable(name.value.text, cs));
  }

  method GrammarCheck(it: TokenIterator) returns (r: Result<Statement, ParseError>)
    requires it.currIdx == 0
    modifies it
    ensures r == Grammar(it.tokens)
  {
    var first := it.GetNext();
    if first.Failure? {
      return Failure(first.error);
    }
    if first.value.text == "SELECT" || first.value.text == "INSERT" {
      return Success(Query);
    }
    if first.value.text == "CREATE" {
      var next := it.Peek(1);
      if next.Failure? {
        return Failure(next.error);
      }
      if next.value.text == "SCHEMA" {
        var word := it.GetNext();
        var name := it.GetNext();
        match name
        case Failure(e) => return Failure(e);
        case Success(t) => return Success(CreateSchema(t.text));
      } else if next.value.text == "TABLE" {
        r := ParseTable(it);
        return;
      }
    }
    return Failure(NoGrammar);
  }

  // ---------- printing ----------

  /** The name of a type, in small letters or in capitals. */
  function TypeName(t: ColumnType, small: bool): string {
    match t
    case StringCol => if small then "string" else "STRING"
    case IntCol => if small then "int" else "INT"
    case FloatCol => if small then "float" else "FLOAT"
  }

  /** The tokens of a column list, each with what follows it. */
  function ColumnTokens(cs: seq<Column>, small: bool): seq<Token> {
    if cs == [] then []
    else
      [Classify(cs[0].name), Classify(TypeName(cs[0].kind, small)),
          Classify(if |cs| == 1 then ")" else ",")] + ColumnTokens(cs[1..], small)
  }

  function TableTokens(name: string, cs: seq<Column>, small: bool): seq<Token> {
    [Classify("CREATE"), Classify("TABLE"), Classify(name), Classify("(")] + ColumnTokens(cs, small)
  }

  /** CREATE TABLE as text. */
  function Print(name: string, cs: seq<Column>, small: bool): string {
    Spaced(TableTokens(name, cs, small))
  }

  /** A name the grammar can take: a word that is none of the table's. */
  ghost predicate PlainName(w: string) {
    IsWord(w) && Lookup(w).None?
  }

  ghost predicate PlainNames(name: string, cs: seq<Column>) {
    PlainName(name) && forall k :: 0 <= k < |cs| ==> PlainName(cs[k].name)
  }

  lemma FixedWords()
    ensures forall t, small :: PlainName(TypeName(t, small))
    ensures Classify("CREATE").kind == CLAUSE && Classify("TABLE").kind == CLAUSE
    ensures IsWord("CREATE") && IsWord("TABLE") && IsOperator("(") && IsOperator(")") && IsOperator(",")
  {
  }

  lemma {:induction false} ColumnTokensShaped(cs: seq<Column>, small: bool)
    requires forall k :: 0 <= k < |cs| ==> IsWord(cs[k].name)
    ensures AllShaped(ColumnTokens(cs, small)) && Reclassified(ColumnTokens(cs, small)) == ColumnTokens(cs, small)
  {
    FixedWords();
    if cs != [] {
      hide IsWord, IsOperator, Lookup, Classify;
      ColumnTokensShaped(cs[1..], small);
    }
  }

  lemma TypeBack(t: ColumnType, small: bool)
    ensures TypeOf(TypeName(t, small)) == Some(t)
  {
  }

  lemma PlainToken(w: string)
    requires PlainName(w)
    ensures Classify(w) == Token(IDENT, w)
  {
  }

  lemma ClassifyText(w: string)
    ensures Classify(w).text == w
  {
  }

  /** Reading one column. */
  lemma ColumnStep(ts: seq<Token>, i: nat, c: Column, more: bool)
    requires i + 2 < |ts| && ts[i] == Token(IDENT, c.name) && TypeOf(ts[i + 1].text) == Some(c.kind)
    requires ts[i + 2].text == if more then "," else ")"
    ensures Columns(ts, i) == if more then Prefixed([c], Columns(ts, i + 3)) else Success(([c], i + 3))
  {
    hide TypeOf;
  }

  /** Reading a printed column list. */
  lemma {:induction false} ColumnsReadBack(before: seq<Token>, cs: seq<Column>, small: bool)
    requires cs != [] && forall k :: 0 <= k < |cs| ==> PlainName(cs[k].name)
    ensures Columns(before + ColumnTokens(cs, small), |before|) == Success((cs, |before| + 3 * |cs|))
    decreases |cs|
  {
    hide Lookup, Classify, TypeOf, TypeName, PlainName, Columns;
    var ts := before + ColumnTokens(cs, small);
    var head := ColumnHead(cs, small);
    ReadsHead(cs, small);
    assert ts == before + head + ColumnTokens(cs[1..], small);
    ColumnStep(ts, |before|, cs[0], |cs| > 1);
    if |cs| > 1 {
      ColumnsReadBack(before + head, cs[1..], small);
      assert [cs[0]] + cs[1..] == cs;
    } else {
      assert cs == [cs[0]];
    }
  }

  function ColumnHead(cs: seq<Column>, small: bool): seq<Token>
    requires cs != []
  {
    [Classify(cs[0].name), Classify(TypeName(cs[0].kind, small)), Classify(if |cs| == 1 then ")" else ",")]
  }

  lemma ReadsHead(cs: seq<Column>, small: bool)
    requires cs != [] && PlainName(cs[0].name)
    ensures
      var head := ColumnHead(cs, small);
      && |head| == 3 && head[0] == Token(IDENT, cs[0].name) && TypeOf(head[1].text) == Some(cs[0].kind)
      && head[2].text == (if |cs| > 1 then "," else ")")
          && ColumnTokens(cs, small) == head + ColumnTokens(cs[1..], small)
  {
    hide Lookup, Classify, TypeOf, TypeName, PlainName;
    PlainToken(cs[0].name);
    ClassifyText(TypeName(cs[0].kind, small));
    ClassifyText(if |cs| == 1 then ")" else ",");
    TypeBack(cs[0].kind, small);
  }

  lemma TableReadBack(name: string, cs: seq<Column>, small: bool)
    requires cs != [] && PlainNames(name, cs)
    ensures Grammar(TableTokens(name, cs, small)) == Success(CreateTable(name, cs))
  {
    var before := [Classify("CREATE"), Classify("TABLE"), Classify(name), Classify("(")];
    hide Lookup, Classify;
    PlainToken(name);
    ClassifyText("CREATE");
    ClassifyText("TABLE");
    ClassifyText("(");
    ColumnsReadBack(before, cs, small);
  }

  lemma PrintedShaped(name: string, cs: seq<Column>, small: bool)
    requires IsWord(name) && forall k :: 0 <= k < |cs| ==> IsWord(cs[k].name)
    ensures Split(Print(name, cs, small), 0, "") == TableTokens(name, cs, small)
  {
    FixedWords();
    ColumnTokensShaped(cs, small);
    hide IsWord, IsOperator, Lookup, Classify, ColumnTokens, Split, Spaced;
    var ts := TableTokens(name, cs, small);
    ClassifyText(name);
    ClassifyText("CREATE");
    ClassifyText("TABLE");
    ClassifyText("(");
    assert AllShaped(ts);
    assert Reclassified(ts) == ts by {
      forall k | 0 <= k < |ts| ensures Reclassified(ts)[k] == ts[k] {
        if k >= 4 {
          assert Reclassified(ColumnTokens(cs, small))[k - 4] == Classify(ts[k].text);
        }
      }
    }
    LexSpaced(ts);
  }

  // ---------- the other direction: what can come back at all ----------

  /** Every name of a parsed column list is a word the lexer took for a name. */
  lemma {:induction false} ColumnsNamed(ts: seq<Token>, i: nat)
    requires Columns(ts, i).Success?
    ensures Columns(ts, i).value.0 != []
    ensures forall k :: 0 <= k < |Columns(ts, i).value.0| ==> Token(IDENT, Columns(ts, i).value.0[k].name) in ts
    decreases |ts| - i
  {
    hide TypeOf;
    assert ts[i] == Token(IDENT, ts[i].text);
    if ts[i + 2].text != ")" {
      ColumnsNamed(ts, i + 3);
    }
  }

  lemma GrammarNamed(ts: seq<Token>)
    requires Grammar(ts).Success? && Grammar(ts).value.CreateTable?
    ensures
      var t := Grammar(ts).value;
      t.columns != [] && Token(IDENT, t.name) in ts && forall k :: 0 <= k < |t.columns| ==>
          Token(IDENT, t.columns[k].name) in ts
  {
    hide Columns;
    ColumnsNamed(ts, 4);
    assert ts[2] == Token(IDENT, ts[2].text);
  }

  lemma PrintedNames(name: string, cs: seq<Column>, small: bool, w: string)
    requires Token(IDENT, w) in TableTokens(name, cs, small)
    ensures Token(IDENT, w) == Classify(w)
  {
    ColumnTokensClassified(cs, small);
  }

  lemma {:induction false} ColumnTokensClassified(cs: seq<Column>, small: bool)
    ensures forall t :: t in ColumnTokens(cs, small) ==> t == Classify(t.text)
  {
    if cs != [] {
      ColumnTokensClassified(cs[1..], small);
      hide Lookup;
    }
  }

  lemma NameComesBack(ts: seq<Token>, w: string)
    requires NamesAreWords(ts) && Token(IDENT, w) in ts
    ensures IsWord(w)
  {
  }

  /**
    Lexing and parsing a printed CREATE TABLE gives the table back exactly when it has a column
    and all of its names are plain: words that are none of the lexer's own; whichever letters its
    types are written in.
   */
  lemma PrintsBackIff(name: string, cs: seq<Column>, small: bool)
    ensures Grammar(Split(Print(name, cs, small), 0, "")) == Success(CreateTable(name, cs)) <==>
        cs != [] && PlainNames(name, cs)
  {
    hide Lookup, Classify, Split, Columns, IsWord, TableTokens, Print;
    if cs != [] && PlainNames(name, cs) {
      PrintedShaped(name, cs, small);
      TableReadBack(name, cs, small);
    }
    var ts := Split(Print(name, cs, small), 0, "");
    if Grammar(ts) == Success(CreateTable(name, cs)) {
      GrammarNamed(ts);
      SplitShaped(Print(name, cs, small), 0, "");
      NameComesBack(ts, name);
      forall k | 0 <= k < |cs| ensures IsWord(cs[k].name) {
        NameComesBack(ts, cs[k].name);
      }
      PrintedShaped(name, cs, small);
      PrintedNames(name, cs, small, name);
      PlainIs(name);
      forall k | 0 <= k < |cs| ensures PlainName(cs[k].name) {
        PrintedNames(name, cs, small, cs[k].name);
        PlainIs(cs[k].name);
      }
    }
  }

  lemma PlainIs(w: string)
    requires IsWord(w) && Token(IDENT, w) == Classify(w)
    ensures PlainName(w)
  {
  }

  // ---------- without spaces ----------

  /** The columns with a space inside each only. */
  function CompactColumns(cs: seq<Column>, small: bool): string {
    if cs == [] then ""
    else
      cs[0].name + " " + TypeName(cs[0].kind, small) + (if |cs| == 1 then "" else ",")
      + CompactColumns(cs[1..], small)
  }

  /** CREATE TABLE without spaces around its operators, closed with a semicolon or not. */
  function Compact(name: string, cs: seq<Column>, small: bool, closed: bool): string {
    "CREATE TABLE " + name + "(" + CompactColumns(cs, small) + (if closed then ");" else ")")
  }

  function CompactColumnTokens(cs: seq<Column>, small: bool): seq<Token> {
    if cs == [] then []
    else
      [Classify(cs[0].name), Token(IDENT, TypeName(cs[0].kind, small)),
          Token(OPERATOR, if |cs| == 1 then ")" else ",")] + CompactColumnTokens(cs[1..], small)
  }

  function CompactTokens(name: string, cs: seq<Column>, small: bool, closed: bool): seq<Token> {
    [Token(CLAUSE, "CREATE"), Token(CLAUSE, "TABLE"), Token(IDENT, name), Token(OPERATOR, "(")]
    + CompactColumnTokens(cs, small) + if closed then [Token(OPERATOR, ";")] else []
  }

  lemma EndRun(closed: bool)
    ensures
      Operators(if closed then ");" else ")")
      == [Token(OPERATOR, ")")] + if closed then [Token(OPERATOR, ";")] else []
  {
  }

  lemma SmallRuns()
    ensures Operators("(") == [Token(OPERATOR, "(")] && Operators(",") == [Token(OPERATOR, ",")]
    ensures Split("", 0, "") == []
  {
  }

  lemma TypeWord(t: ColumnType, small: bool)
    ensures IsWord(TypeName(t, small))
  {
    FixedWords();
    assert PlainName(TypeName(t, small));
  }

  /** A column and the run of operators after it. */
  lemma ColumnLexed(c: Column, small: bool, ops: string, rest: string)
    requires IsWord(c.name) && ops != "" && (forall k :: 0 <= k < |ops| ==> IsSeparator(ops[k]))
    requires rest == "" || !IsSeparator(rest[0])
    ensures
      Split(c.name + " " + (TypeName(c.kind, small) + ops + rest), 0, "")
      == [Classify(c.name), Token(IDENT, TypeName(c.kind, small))] + Operators(ops) + Split(rest, 0, "")
  {
    hide Classify, Operators, Split, TypeName, IsSeparator, Lookup, IsWord;
    TypeWord(c.kind, small);
    SplitFirst(c.name, TypeName(c.kind, small) + ops + rest);
    WordThenRun(TypeName(c.kind, small), ops, rest);
  }

  lemma {:induction false} ColumnsLexed(cs: seq<Column>, small: bool, closed: bool)
    requires cs != [] && forall k :: 0 <= k < |cs| ==> IsWord(cs[k].name)
    ensures
      Split(CompactColumns(cs, small) + (if closed then ");" else ")"), 0, "")
      == CompactColumnTokens(cs, small) + if closed then [Token(OPERATOR, ";")] else []
    decreases |cs|
  {
    SmallRuns();
    EndRun(closed);
    hide Classify, Operators, Split, TypeName, IsWord;
    var end := if closed then ");" else ")";
    if |cs| == 1 {
      ColumnLexed(cs[0], small, end, "");
      OneText(cs, small, end);
    } else {
      ColumnsLexed(cs[1..], small, closed);
      ColumnsStart(cs[1..], small, end);
      ColumnLexed(cs[0], small, ",", CompactColumns(cs[1..], small) + end);
      MoreText(cs, small, end);
    }
  }

  lemma OneText(cs: seq<Column>, small: bool, end: string)
    requires |cs| == 1
    ensures CompactColumns(cs, small) + end == cs[0].name + " " + (TypeName(cs[0].kind, small) + end + "")
    ensures CompactColumnTokens(cs, small)
        == [Classify(cs[0].name), Token(IDENT, TypeName(cs[0].kind, small)), Token(OPERATOR, ")")]
  {
    hide Classify, TypeName;
    assert CompactColumns(cs[1..], small) == "" && CompactColumnTokens(cs[1..], small) == [];
  }

  lemma MoreText(cs: seq<Column>, small: bool, end: string)
    requires |cs| > 1
    ensures
      CompactColumns(cs, small) + end
      == cs[0].name + " " + (TypeName(cs[0].kind, small) + "," + (CompactColumns(cs[1..], small) + end))
  {
    hide TypeName, CompactColumns;
    MoreStep(cs, small);
    TextJoined(cs[0].name, TypeName(cs[0].kind, small), CompactColumns(cs[1..], small), end);
  }

  lemma MoreStep(cs: seq<Column>, small: bool)
    requires |cs| > 1
    ensures
      CompactColumns(cs, small)
      == cs[0].name + " " + TypeName(cs[0].kind, small) + "," + CompactColumns(cs[1..], small)
  {
    hide TypeName;
  }

  lemma TextJoined(a: string, b: string, c: string, d: string)
    ensures a + " " + b + "," + c + d == a + " " + (b + "," + (c + d))
  {
  }

  lemma ColumnsStart(cs: seq<Column>, small: bool, end: string)
    requires cs != [] && IsWord(cs[0].name)
    ensures
      var text := CompactColumns(cs, small) + end;
      text != "" && !IsSeparator(text[0])
  {
    assert IsWordChar(cs[0].name[0]);
  }

  lemma CompactLexed(name: string, cs: seq<Column>, small: bool, closed: bool)
    requires cs != [] && IsWord(name) && forall k :: 0 <= k < |cs| ==> IsWord(cs[k].name)
    ensures Split(Compact(name, cs, small, closed), 0, "") == CompactTokens(name, cs, small, closed)
  {
    FixedWords();
    SmallRuns();
    Clauses();
    hide Classify, Lookup, Operators, Split, IsWord, CompactColumns, CompactColumnTokens, IsSeparator;
    var end := if closed then ");" else ")";
    var text := CompactColumns(cs, small) + end;
    ColumnsLexed(cs, small, closed);
    ColumnsStart(cs, small, end);
    var table := name + "(" + text;
    WordThenRun(name, "(", text);
    SplitFirst("TABLE", table);
    SplitFirst("CREATE", "TABLE" + " " + table);
    assert Compact(name, cs, small, closed) == "CREATE" + " " + ("TABLE" + " " + table);
  }

  lemma Clauses()
    ensures Classify("CREATE") == Token(CLAUSE, "CREATE") && Classify("TABLE") == Token(CLAUSE, "TABLE")
  {
  }

  lemma CompactFirst(cs: seq<Column>, small: bool)
    requires cs != [] && Classify(cs[0].name) == Token(IDENT, cs[0].name)
    ensures
      CompactColumnTokens(cs, small)
      == [Token(IDENT, cs[0].name), Token(IDENT, TypeName(cs[0].kind, small)),
          Token(OPERATOR, if |cs| == 1 then ")" else ",")] + CompactColumnTokens(cs[1..], small)
  {
    hide Classify, TypeName;
  }

  lemma HeadAt(before: seq<Token>, head: seq<Token>, rest: seq<Token>, after: seq<Token>)
    ensures before + (head + rest) + after == before + head + rest + after
    ensures forall k :: 0 <= k < |head| ==> (before + (head + rest) + after)[|before| + k] == head[k]
  {
  }

  lemma {:induction false} CompactColumnsRead(before: seq<Token>, cs: seq<Column>, small: bool, after: seq<Token>)
    requires cs != [] && forall k :: 0 <= k < |cs| ==> PlainName(cs[k].name)
    ensures
      Columns(before + CompactColumnTokens(cs, small) + after, |before|) == Success((cs, |before| + 3 * |cs|))
    decreases |cs|
  {
    hide Lookup, Classify, TypeOf, TypeName, PlainName, Columns, CompactColumnTokens;
    PlainToken(cs[0].name);
    TypeBack(cs[0].kind, small);
    CompactFirst(cs, small);
    var head := [Token(IDENT, cs[0].name), Token(IDENT, TypeName(cs[0].kind, small)),
                 Token(OPERATOR, if |cs| == 1 then ")" else ",")];
    var rest := CompactColumnTokens(cs[1..], small);
    var ts := before + (head + rest) + after;
    HeadAt(before, head, rest, after);
    assert ts[|before| + 0] == head[0] && ts[|before| + 1] == head[1] && ts[|before| + 2] == head[2];
    ColumnStep(ts, |before|, cs[0], |cs| > 1);
    if |cs| > 1 {
      CompactColumnsRead(before + head, cs[1..], small, after);
      assert [cs[0]] + cs[1..] == cs;
    } else {
      assert cs == [cs[0]];
    }
  }

  /** A column's name stands where the grammar asks for a name. */
  lemma {:induction false} ColumnNamesAt(ts: seq<Token>, i: nat, k: nat)
    requires Columns(ts, i).Success? && k < |Columns(ts, i).value.0|
    ensures i + 3 * k < |ts| && ts[i + 3 * k] == Token(IDENT, Columns(ts, i).value.0[k].name)
    decreases k
  {
    hide TypeOf;
    if k > 0 {
      ColumnNamesAt(ts, i + 3, k - 1);
    }
  }

  lemma {:induction false} CompactNamesAt(cs: seq<Column>, small: bool, k: nat)
    requires k < |cs|
    ensures 3 * k < |CompactColumnTokens(cs, small)|
    ensures CompactColumnTokens(cs, small)[3 * k] == Classify(cs[k].name)
  {
    hide Classify, TypeName;
    if k > 0 {
      CompactNamesAt(cs[1..], small, k - 1);
    }
  }

  /**
    Written without spaces around its operators, and closed with a semicolon or not, CREATE TABLE reads
    back exactly when the table has a column, its columns' names are plain, and its own name is any word
    at all: one that ends at a parenthesis is never taken for a clause.
   */
  lemma CompactReadsBackIff(name: string, cs: seq<Column>, small: bool, closed: bool)
    ensures Grammar(Split(Compact(name, cs, small, closed), 0, "")) == Success(CreateTable(name, cs)) <==>
        cs != [] && IsWord(name) && forall k :: 0 <= k < |cs| ==> PlainName(cs[k].name)
  {
    hide Lookup, Classify, Split, Columns, IsWord, CompactTokens, Compact;
    var ts := Split(Compact(name, cs, small, closed), 0, "");
    if cs != [] && IsWord(name) && forall k :: 0 <= k < |cs| ==> PlainName(cs[k].name) {
      CompactLexed(name, cs, small, closed);
      CompactRead(name, cs, small, closed);
    }
    if Grammar(ts) == Success(CreateTable(name, cs)) {
      GrammarNamed(ts);
      SplitShaped(Compact(name, cs, small, closed), 0, "");
      NameComesBack(ts, name);
      forall k | 0 <= k < |cs| ensures IsWord(cs[k].name) {
        NameComesBack(ts, cs[k].name);
      }
      CompactLexed(name, cs, small, closed);
      forall k | 0 <= k < |cs| ensures PlainName(cs[k].name) {
        ColumnNamesAt(ts, 4, k);
        CompactNamesAt(cs, small, k);
        CompactAt(name, cs, small, closed, 3 * k);
        PlainIs(cs[k].name);
      }
    }
  }

  lemma CompactRead(name: string, cs: seq<Column>, small: bool, closed: bool)
    requires cs != [] && forall k :: 0 <= k < |cs| ==> PlainName(cs[k].name)
    ensures Grammar(CompactTokens(name, cs, small, closed)) == Success(CreateTable(name, cs))
  {
    hide Lookup, Classify, CompactColumnTokens;
    var before := CompactTokens(name, cs, small, closed)[..4];
    var after := if closed then [Token(OPERATOR, ";")] else [];
    assert CompactTokens(name, cs, small, closed) == before + CompactColumnTokens(cs, small) + after;
    CompactColumnsRead(before, cs, small, after);
  }

  lemma CompactAt(name: string, cs: seq<Column>, small: bool, closed: bool, i: nat)
    requires i < |CompactColumnTokens(cs, small)|
    ensures 4 + i < |CompactTokens(name, cs, small, closed)|
    ensures CompactTokens(name, cs, small, closed)[4 + i] == CompactColumnTokens(cs, small)[i]
  {
    hide CompactColumnTokens;
  }

  // ---------- what stops the parser ----------

  /** A token that can stand in place n of a CREATE TABLE. */
  predicate FitsPlace(n: nat, t: Token) {
    if n == 0 then t.text in {"SELECT", "INSERT", "CREATE"}
    else if n == 1 then t.text in {"SCHEMA", "TABLE"}
    else if n == 2 then t.kind == IDENT
    else if n == 3 then t.text == "("
    else if n % 3 == 1 then t.kind == IDENT
    else if n % 3 == 2 then t.text in {"STRING", "string", "INT", "int", "FLOAT", "float"}
    else t.text in {",", ")"}
  }

  /** What the parser says of a token that cannot. */
  function ErrorAt(n: nat): ParseError {
    if n <= 1 then NoGrammar
    else if n == 2 then Expected("table name")
    else if n == 3 then Expected("(")
    else if n % 3 == 1 then Expected("column name")
    else if n % 3 == 2 then BadType
    else Expected(", or )")
  }

  /** The tokens go as those of the table up to place n, and there they end or go wrong. */
  ghost predicate StopsAt(ts: seq<Token>, all: seq<Token>, n: nat) {
    n < |all| && n <= |ts| && ts[..n] == all[..n] && (n < |ts| ==> !FitsPlace(n, ts[n]))
  }

  lemma GoesAs(ts: seq<Token>, all: seq<Token>, i: nat, n: nat)
    requires i <= n <= |ts| && n - i <= |all| && ts[i..n] == all[..n - i]
    ensures forall k :: 0 <= k < n - i ==> ts[i + k] == all[k]
  {
    forall k | 0 <= k < n - i ensures ts[i + k] == all[k] {
      assert ts[i..n][k] == all[..n - i][k];
    }
  }

  /** Column by column, up to the place where the tokens stop. */
  lemma {:induction false} ColumnsStop(ts: seq<Token>, i: nat, cs: seq<Column>, small: bool, n: nat)
    requires i % 3 == 1 && i > 3 && i <= n <= |ts| && cs != [] && n - i < |ColumnTokens(cs, small)|
    requires forall k :: 0 <= k < |cs| ==> PlainName(cs[k].name)
    requires ts[i..n] == ColumnTokens(cs, small)[..n - i] && (n < |ts| ==> !FitsPlace(n, ts[n]))
    ensures Columns(ts, i) == Failure(if n == |ts| then OutOfTokens else ErrorAt(n))
    decreases |cs|
  {
    hide Lookup, Classify, TypeName, PlainName, ColumnTokens, Columns, ColumnHead;
    GoesAs(ts, ColumnTokens(cs, small), i, n);
    ReadsHead(cs, small);
    var rest, head := ColumnTokens(cs[1..], small), ColumnHead(cs, small);
    assert |head + rest| == 3 + |rest| && (head + rest)[0] == head[0] && (head + rest)[1] == head[1];
    if n >= i + 3 {
      NoTokens(small);
      assert cs[1..] != [];
      assert (head + rest)[2] == head[2] && (head + rest)[3..] == rest;
      ColumnStep(ts, i, cs[0], true);
      assert ts[i + 3..n] == ts[i..n][3..] == ColumnTokens(cs, small)[..n - i][3..] == rest[..n - i - 3];
      ColumnsStop(ts, i + 3, cs[1..], small, n);
    } else {
      ColumnStops(ts, i, cs[0], n);
    }
  }

  lemma NoTokens(small: bool)
    ensures ColumnTokens([], small) == []
  {
  }

  /** The tokens stop inside a column. */
  lemma ColumnStops(ts: seq<Token>, i: nat, c: Column, n: nat)
    requires i % 3 == 1 && i > 3 && i <= n <= |ts| && n < i + 3 && (n < |ts| ==> !FitsPlace(n, ts[n]))
    requires n > i ==> ts[i] == Token(IDENT, c.name)
    requires n > i + 1 ==> TypeOf(ts[i + 1].text) == Some(c.kind)
    ensures Columns(ts, i) == Failure(if n == |ts| then OutOfTokens else ErrorAt(n))
  {
    hide TypeOf;
  }

  /**
    The tokens of a table up to some place, and there the end or a token that cannot stand in it: the
    parser runs out of tokens, or fails with the error of that place, whatever comes after.
   */
  lemma ParserStops(name: string, cs: seq<Column>, small: bool, ts: seq<Token>, n: nat)
    requires cs != [] && PlainNames(name, cs) && StopsAt(ts, TableTokens(name, cs, small), n)
    ensures Grammar(ts) == Failure(if n == |ts| then OutOfTokens else ErrorAt(n))
  {
    hide Lookup, Classify, ColumnTokens, Columns, PlainName;
    var all := TableTokens(name, cs, small);
    assert ts[0..n] == ts[..n];
    GoesAs(ts, all, 0, n);
    StartsRight(name);
    if n >= 4 {
      assert ts[4..n] == ts[..n][4..] == all[..n][4..] == ColumnTokens(cs, small)[..n - 4];
      ColumnsStop(ts, 4, cs, small, n);
      TableFrom(ts, name);
    } else {
      StartStops(ts, n);
    }
  }

  lemma StartsRight(name: string)
    requires PlainName(name)
    ensures Classify("CREATE").text == "CREATE" && Classify("TABLE").text == "TABLE" && Classify("(").text == "("
    ensures Classify(name) == Token(IDENT, name)
  {
    PlainToken(name);
  }

  lemma TableFrom(ts: seq<Token>, name: string)
    requires |ts| >= 4 && ts[0].text == "CREATE" && ts[1].text == "TABLE" && ts[2] == Token(IDENT, name)
    requires ts[3].text == "(" && Columns(ts, 4).Failure?
    ensures Grammar(ts) == Failure(Columns(ts, 4).error)
  {
    hide Columns;
  }

  /** The tokens stop before the columns. */
  lemma StartStops(ts: seq<Token>, n: nat)
    requires n <= |ts| && n < 4 && (n < |ts| ==> !FitsPlace(n, ts[n]))
    requires n > 0 ==> ts[0].text == "CREATE"
    requires n > 1 ==> ts[1].text == "TABLE"
    requires n > 2 ==> ts[2].kind == IDENT
    ensures Grammar(ts) == Failure(if n == |ts| then OutOfTokens else ErrorAt(n))
  {
    hide Columns;
  }

  // ---------- CREATE SCHEMA ----------

  function SchemaTokens(name: string): seq<Token> {
    [Classify("CREATE"), Classify("SCHEMA"), Classify(name)]
  }

  /** CREATE SCHEMA, written with spaces, reads back under any name the lexer can make one token of. */
  lemma SchemaReadsBackIff(name: string)
    ensures Grammar(Split(Spaced(SchemaTokens(name)), 0, "")) == Success(CreateSchema(name)) <==> Shaped(name)
  {
    SchemaWords();
    hide Lookup, Classify, Split, IsWord, IsOperator;
    ClassifyText("CREATE");
    ClassifyText("SCHEMA");
    ClassifyText(name);
    var ts := Split(Spaced(SchemaTokens(name)), 0, "");
    if Shaped(name) {
      LexSpaced(SchemaTokens(name));
      assert Reclassified(SchemaTokens(name)) == SchemaTokens(name);
    }
    if Grammar(ts) == Success(CreateSchema(name)) {
      SplitShaped(Spaced(SchemaTokens(name)), 0, "");
      assert Shaped(ts[2].text);
    }
  }

  lemma SchemaWords()
    ensures IsWord("CREATE") && IsWord("SCHEMA")
  {
  }
}
