/** The lexer: one pass over the text that splits it into words and operators. */
module Lexers {
  import opened StorageTypes

  datatype TokenKind = OPERATOR | IDENT | CLAUSE
  datatype Token = Token(kind: TokenKind, text: string)

  const CLAUSES := {"SELECT", "INSERT", "INTO", "VALUES", "FROM", "WHERE", "CREATE", "TABLE", "SCHEMA"}
  const OPERATORS := {",", "*", "=", "<", ">", ">=", "<=", "==", ";", ")", "("}

  /** The lexer's table. */
  function Lookup(w: string): Option<TokenKind> {
    if w in CLAUSES then Some(CLAUSE) else if w in OPERATORS then Some(OPERATOR) else None
  }

  predicate IsSeparator(c: char) {
    c == ',' || c == '>' || c == '=' || c == '<' || c == '*' || c == ';' || c == '(' || c == ')'
  }

  function Classify(w: string): Token {
    Token(if Lookup(w).Some? then Lookup(w).value else IDENT, w)
  }

  /** The end of the run of separators that starts at i. */
  function RunEnd(s: string, i: nat): (j: nat)
    requires i <= |s|
    ensures i <= j <= |s|
    ensures forall k :: i <= k < j ==> IsSeparator(s[k])
    ensures j < |s| ==> !IsSeparator(s[j])
    decreases |s| - i
  {
    if i < |s| && IsSeparator(s[i]) then RunEnd(s, i + 1) else i
  }

  function Singles(ops: string): (r: seq<Token>)
    ensures |r| == |ops| && forall k :: 0 <= k < |r| ==> r[k] == Token(OPERATOR, [ops[k]])
  {
    seq(|ops|, k requires 0 <= k < |ops| => Token(OPERATOR, [ops[k]]))
  }

  /** A run of separators is one operator if the table has it, and else one for each character. */
  function Operators(ops: string): seq<Token> {
    if Lookup(ops).Some? then [Token(OPERATOR, ops)] else Singles(ops)
  }

  /**
    The tokens of the text from i on, with the word w begun before it. A word cut off by a
    separator is not looked up.
   */
  function Split(s: string, i: nat, w: string): seq<Token>
    requires i <= |s|
    decreases |s| - i
  {
    if i == |s| then (if w == "" then [] else [Classify(w)])
    else if IsSeparator(s[i]) then
      var j := RunEnd(s, i);
      (if w == "" then [] else [Token(IDENT, w)]) + Operators(s[i..j]) + Split(s, j, "")
    else if s[i] == ' ' && w != "" then [Classify(w)] + Split(s, i + 1, "")
    else Split(s, i + 1, if s[i] != ' ' && s[i] != '\'' then w + [s[i]] else w)
  }

  /** Collects a run of separators into one operator or several. */
  method TakeOperators(input: string, start: nat) returns (ops: seq<Token>, i: nat)
    requires start < |input| && IsSeparator(input[start])
    ensures i == RunEnd(input, start) > start && ops == Operators(input[start..i])
  {
    var currWord := [input[start]];
    i := start + 1;
    while i < |input| && IsSeparator(input[i])
      invariant start < i <= |input| && currWord == input[start..i] && RunEnd(input, i) == RunEnd(input, start)
    {
      currWord := currWord + [input[i]];
      i := i + 1;
    }
    if Lookup(currWord).Some? {
      return [Token(OPERATOR, currWord)], i;
    }
    ops := [];
    for k := 0 to |currWord|
      invariant ops == Singles(currWord)[..k]
    {
      ops := ops + [Token(OPERATOR, [currWord[k]])];
    }
    assert Singles(currWord)[..|currWord|] == Singles(currWord);
  }

  /** The lexer as it runs. */
  method WhitespaceSplit(input: string) returns (result: seq<Token>)
    ensures result == Split(input, 0, "")
  {
    hide Split, Operators, Classify, RunEnd;
    result := [];
    var currWord := "";
    var i := 0;
    ghost var want := Split(input, 0, "");
    while i < |input|
      invariant 0 <= i <= |input| && result + Split(input, i, currWord) == want
    {
      SplitStep(input, i, currWord);
      if IsSeparator(input[i]) {
        if currWord != "" {
          result := result + [Token(IDENT, currWord)];
        }
        var ops, next := TakeOperators(input, i);
        result := result + ops;
        i := next;
        currWord := "";
      } else if input[i] == ' ' && currWord != "" {
        result := result + [Classify(currWord)];
        currWord := "";
        i := i + 1;
      } else {
        if input[i] != ' ' && input[i] != '\'' {
          currWord := currWord + [input[i]];
        }
        i := i + 1;
      }
    }
    SplitEnd(input, currWord);
    if currWord != "" {
      result := result + [Classify(currWord)];
    }
  }

  lemma SplitEnd(s: string, w: string)
    ensures Split(s, |s|, w) == if w == "" then [] else [Classify(w)]
  {
  }

  lemma SplitStep(s: string, i: nat, w: string)
    requires i < |s|
    ensures IsSeparator(s[i]) ==>
      Split(s, i, w) ==
      (if w == "" then [] else [Token(IDENT, w)]) + Operators(s[i..RunEnd(s, i)]) + Split(s, RunEnd(s, i), "")
    ensures !IsSeparator(s[i]) && s[i] == ' ' && w != "" ==> Split(s, i, w) == [Classify(w)] + Split(s, i + 1, "")
    ensures !IsSeparator(s[i]) && !(s[i] == ' ' && w != "") ==>
      Split(s, i, w) == Split(s, i + 1, if s[i] != ' ' && s[i] != '\'' then w + [s[i]] else w)
  {
  }

  // ---------- printing, and what the lexer makes of it ----------

  predicate IsWordChar(c: char) {
    !IsSeparator(c) && c != ' ' && c != '\''
  }

  ghost predicate IsWord(w: string) {
    w != "" && forall k :: 0 <= k < |w| ==> IsWordChar(w[k])
  }

  ghost predicate IsOperator(w: string) {
    w != "" && Lookup(w).Some? && forall k :: 0 <= k < |w| ==> IsSeparator(w[k])
  }

  /** A text the lexer can produce as one token. */
  ghost predicate Shaped(w: string) {
    IsWord(w) || IsOperator(w)
  }

  /** A token as the lexer makes it from its own text. */
  ghost predicate WellFormed(t: Token) {
    Shaped(t.text) && t == Classify(t.text)
  }

  ghost predicate AllShaped(ts: seq<Token>) {
    forall k :: 0 <= k < |ts| ==> Shaped(ts[k].text)
  }

  ghost predicate AllWellFormed(ts: seq<Token>) {
    forall k :: 0 <= k < |ts| ==> WellFormed(ts[k])
  }

  /** The texts of some tokens with a space after each. */
  function Spaced(ts: seq<Token>): string {
    if ts == [] then "" else ts[0].text + " " + Spaced(ts[1..])
  }

  function Reclassified(ts: seq<Token>): (r: seq<Token>)
    ensures |r| == |ts| && forall k :: 0 <= k < |r| ==> r[k] == Classify(ts[k].text)
  {
    seq(|ts|, k requires 0 <= k < |ts| => Classify(ts[k].text))
  }

  /** Reading on inside a word only makes it longer. */
  lemma {:induction false} SplitWord(s: string, i: nat, w: string, n: nat)
    requires i + n <= |s| && forall k :: i <= k < i + n ==> IsWordChar(s[k])
    ensures Split(s, i, w) == Split(s, i + n, w + s[i..i + n])
    decreases n
  {
    if n == 0 {
      assert w + s[i..i] == w;
    } else {
      SplitWord(s, i + 1, w + [s[i]], n - 1);
      assert w + [s[i]] + s[i + 1..i + n] == w + s[i..i + n];
    }
  }

  /** What comes before plays no part. */
  lemma {:induction false} SplitDrop(s: string, n: nat, i: nat, w: string)
    requires n + i <= |s|
    ensures Split(s, n + i, w) == Split(s[n..], i, w)
    decreases |s| - i
  {
    hide Classify, Lookup, Operators, RunEnd, Split;
    var t := s[n..];
    if n + i == |s| {
      SplitEnd(s, w);
      SplitEnd(t, w);
    } else {
      assert t[i] == s[n + i];
      SplitStep(s, n + i, w);
      SplitStep(t, i, w);
      if IsSeparator(s[n + i]) {
        RunEndDrop(s, n, i);
        var j := RunEnd(t, i);
        assert t[i..j] == s[n + i..n + j];
        assert j > i;
        SplitDrop(s, n, j, "");
      } else if s[n + i] == ' ' && w != "" {
        SplitDrop(s, n, i + 1, "");
      } else {
        SplitDrop(s, n, i + 1, if s[n + i] != ' ' && s[n + i] != '\'' then w + [s[n + i]] else w);
      }
    }
  }

  lemma {:induction false} RunEndDrop(s: string, n: nat, i: nat)
    requires n + i <= |s|
    ensures RunEnd(s, n + i) == n + RunEnd(s[n..], i)
    decreases |s| - i
  {
    if n + i < |s| && IsSeparator(s[n + i]) {
      RunEndDrop(s, n, i + 1);
    }
  }

  lemma {:induction false} RunEndIs(s: string, i: nat, j: nat)
    requires i <= j <= |s| && (forall k :: i <= k < j ==> IsSeparator(s[k])) && (j < |s| ==> !IsSeparator(s[j]))
    ensures RunEnd(s, i) == j
    decreases j - i
  {
    if i < j {
      RunEndIs(s, i + 1, j);
    }
  }

  lemma FirstWord(s: string, w: string)
    requires IsWord(w) && |s| > |w| && s[..|w|] == w && s[|w|] == ' '
    ensures Split(s, 0, "") == [Classify(w)] + Split(s, |w| + 1, "")
  {
    hide Classify, Lookup, RunEnd;
    SplitWord(s, 0, "", |w|);
    assert "" + s[0..|w|] == w;
    SplitStep(s, |w|, w);
  }

  lemma SkipSpace(s: string, i: nat)
    requires i < |s| && s[i] == ' '
    ensures Split(s, i, "") == Split(s, i + 1, "")
  {
  }

  lemma TakeRun(s: string, w: string)
    requires IsOperator(w) && |s| > |w| && s[..|w|] == w && !IsSeparator(s[|w|])
    ensures Split(s, 0, "") == Operators(w) + Split(s, |w|, "")
  {
    hide Classify, Lookup, Operators;
    RunEndIs(s, 0, |w|);
    assert s[0..|w|] == w && IsSeparator(s[0]);
  }

  lemma FirstOperator(s: string, w: string)
    requires IsOperator(w) && |s| > |w| && s[..|w|] == w && s[|w|] == ' '
    ensures Split(s, 0, "") == [Classify(w)] + Split(s, |w| + 1, "")
  {
    OperatorKind(w);
    TakeRun(s, w);
    SkipSpace(s, |w|);
    assert Operators(w) == [Classify(w)] by {
      hide Classify, Split;
    }
  }

  lemma SplitFirst(w: string, rest: string)
    requires Shaped(w)
    ensures Split(w + " " + rest, 0, "") == [Classify(w)] + Split(rest, 0, "")
  {
    hide Split, Classify;
    var s := w + " " + rest;
    assert s[..|w|] == w && s[|w|] == ' ' && s[|w| + 1..] == rest;
    SplitDrop(s, |w| + 1, 0, "");
    if IsWord(w) {
      FirstWord(s, w);
    } else {
      FirstOperator(s, w);
    }
  }

  lemma OperatorKind(w: string)
    requires IsOperator(w)
    ensures Classify(w) == Token(OPERATOR, w)
  {
    assert IsSeparator(w[0]);
  }

  /** Texts of the right shape come back one token each, looked up in the table. */
  lemma {:induction false} LexSpaced(ts: seq<Token>)
    requires AllShaped(ts)
    ensures Split(Spaced(ts), 0, "") == Reclassified(ts)
  {
    if ts != [] {
      assert AllShaped(ts[1..]);
      LexSpaced(ts[1..]);
      SplitFirst(ts[0].text, Spaced(ts[1..]));
    }
  }

  /** What the lexer takes for a name is a word. */
  ghost predicate NamesAreWords(ts: seq<Token>) {
    forall k :: 0 <= k < |ts| && ts[k].kind == IDENT ==> IsWord(ts[k].text)
  }

  lemma OperatorsShaped(ops: string)
    requires ops != "" && forall k :: 0 <= k < |ops| ==> IsSeparator(ops[k])
    ensures AllShaped(Operators(ops)) && NamesAreWords(Operators(ops))
  {
  }

  lemma ClassifyShaped(w: string)
    requires IsWord(w)
    ensures AllShaped([Classify(w)]) && NamesAreWords([Classify(w)])
  {
  }

  /** The lexer only ever produces words and operators. */
  lemma {:induction false} SplitShaped(s: string, i: nat, w: string)
    requires i <= |s| && (w == "" || IsWord(w))
    ensures AllShaped(Split(s, i, w)) && NamesAreWords(Split(s, i, w))
    decreases |s| - i
  {
    hide Split, Lookup, Classify, Operators, RunEnd;
    if w != "" {
      ClassifyShaped(w);
    }
    if i == |s| {
      SplitEnd(s, w);
    } else {
      SplitStep(s, i, w);
      if IsSeparator(s[i]) {
        var j := RunEnd(s, i);
        RunEndIs(s, i, j);
        RunMoves(s, i);
        SplitShaped(s, j, "");
        OperatorsShaped(s[i..j]);
      } else if s[i] == ' ' && w != "" {
        SplitShaped(s, i + 1, "");
      } else {
        SplitShaped(s, i + 1, if s[i] != ' ' && s[i] != '\'' then w + [s[i]] else w);
      }
    }
  }

  lemma RunMoves(s: string, i: nat)
    requires i < |s| && IsSeparator(s[i])
    ensures RunEnd(s, i) > i
  {
  }

  /** A list of tokens, written out with spaces, is read back exactly when every one of them is well formed. */
  lemma LexesBackIff(ts: seq<Token>)
    ensures Split(Spaced(ts), 0, "") == ts <==> AllWellFormed(ts)
  {
    if Split(Spaced(ts), 0, "") == ts {
      SplitShaped(Spaced(ts), 0, "");
      LexSpaced(ts);
    }
    if AllWellFormed(ts) {
      LexSpaced(ts);
    }
  }

  // ---------- any text ----------

  /** The text without its spaces and quotes. */
  function Stripped(s: string): string {
    if s == "" then "" else (if s[0] == ' ' || s[0] == '\'' then "" else [s[0]]) + Stripped(s[1..])
  }

  function Joined(ts: seq<Token>): string {
    if ts == [] then "" else ts[0].text + Joined(ts[1..])
  }

  lemma {:induction false} JoinedTwice(a: seq<Token>, b: seq<Token>)
    ensures Joined(a + b) == Joined(a) + Joined(b)
  {
    if a == [] {
      assert a + b == b;
    } else {
      assert (a + b)[1..] == a[1..] + b;
      JoinedTwice(a[1..], b);
    }
  }

  lemma {:induction false} JoinedSingles(ops: string)
    ensures Joined(Singles(ops)) == ops
  {
    if ops != "" {
      JoinedSingles(ops[1..]);
      assert Singles(ops)[1..] == Singles(ops[1..]);
    }
  }

  lemma JoinedOne(t: Token)
    ensures Joined([t]) == t.text
  {
    assert [t][1..] == [];
  }

  lemma JoinedOperators(ops: string)
    ensures Joined(Operators(ops)) == ops
  {
    JoinedSingles(ops);
    JoinedOne(Token(OPERATOR, ops));
  }

  lemma {:induction false} StrippedRun(s: string, i: nat, j: nat)
    requires i <= j <= |s| && forall k :: i <= k < j ==> IsSeparator(s[k])
    ensures Stripped(s[i..]) == s[i..j] + Stripped(s[j..])
    decreases j - i
  {
    if i < j {
      StrippedRun(s, i + 1, j);
      assert s[i..][1..] == s[i + 1..] && s[i..j] == [s[i]] + s[i + 1..j];
    } else {
      assert s[i..j] == "";
    }
  }

  lemma StrippedStep(s: string, i: nat)
    requires i < |s|
    ensures Stripped(s[i..]) == (if s[i] == ' ' || s[i] == '\'' then "" else [s[i]]) + Stripped(s[i + 1..])
  {
    assert s[i..][1..] == s[i + 1..];
  }

  /** Whatever the text, its tokens joined are the text without its spaces and quotes: nothing is lost or made up. */
  lemma {:induction false} SplitKeepsText(s: string, i: nat, w: string)
    requires i <= |s|
    ensures Joined(Split(s, i, w)) == w + Stripped(s[i..])
    decreases |s| - i
  {
    hide Split, Operators, Classify, RunEnd, Stripped, Joined, IsSeparator;
    SplitEnd(s, w);
    JoinedOne(Token(IDENT, w));
    ClassifyKeeps(w);
    JoinedOne(Classify(w));
    if i == |s| {
      NothingJoined();
      assert s[i..] == "";
    } else {
      SplitStep(s, i, w);
      StrippedStep(s, i);
      NothingJoined();
      if IsSeparator(s[i]) {
        var j := RunEnd(s, i);
        RunMoves(s, i);
        StrippedRun(s, i, j);
        SplitKeepsText(s, j, "");
        var first := if w == "" then [] else [Token(IDENT, w)];
        JoinedTwice(first, Operators(s[i..j]));
        JoinedTwice(first + Operators(s[i..j]), Split(s, j, ""));
        JoinedOperators(s[i..j]);
      } else if s[i] == ' ' && w != "" {
        JoinedTwice([Classify(w)], Split(s, i + 1, ""));
        SplitKeepsText(s, i + 1, "");
      } else {
        SplitKeepsText(s, i + 1, if s[i] != ' ' && s[i] != '\'' then w + [s[i]] else w);
      }
    }
  }

  lemma ClassifyKeeps(w: string)
    ensures Classify(w).text == w
  {
  }

  lemma NothingJoined()
    ensures Joined([]) == "" && Stripped("") == ""
  {
  }

  /** A word, a run of separators, and what comes after them. */
  lemma WordThenRun(w: string, ops: string, rest: string)
    requires IsWord(w) && ops != "" && (forall k :: 0 <= k < |ops| ==> IsSeparator(ops[k]))
    requires rest == "" || !IsSeparator(rest[0])
    ensures Split(w + ops + rest, 0, "") == [Token(IDENT, w)] + Operators(ops) + Split(rest, 0, "")
  {
    hide Split, Classify, Lookup, Operators, IsSeparator;
    var s := w + ops + rest;
    var n, m := |w|, |w| + |ops|;
    assert forall k :: 0 <= k < n ==> s[k] == w[k];
    SplitWord(s, 0, "", n);
    assert "" + s[0..n] == w;
    assert forall k :: n <= k < m ==> s[k] == ops[k - n];
    assert rest != "" ==> s[m] == rest[0];
    RunEndIs(s, n, m);
    SplitStep(s, n, w);
    assert s[n..m] == ops && s[m..] == rest;
    SplitDrop(s, m, 0, "");
  }

  lemma LastWord(w: string)
    requires IsWord(w)
    ensures Split(w, 0, "") == [Classify(w)]
  {
    hide Classify, Split;
    SplitWord(w, 0, "", |w|);
    assert "" + w[0..|w|] == w;
    SplitEnd(w, w);
  }

  /** A run of separators between two words, which need no spaces around it. */
  lemma RunBetween(a: string, ops: string, b: string)
    requires a != "" && b != "" && ops != "" && forall k :: 0 <= k < |ops| ==> ops[k] in ",>=<*;()"
    requires forall k :: 0 <= k < |a| ==> a[k] !in ",>=<*;() '"
    requires forall k :: 0 <= k < |b| ==> b[k] !in ",>=<*;() '"
    ensures
      var clauses := {"SELECT", "INSERT", "INTO", "VALUES", "FROM", "WHERE", "CREATE", "TABLE", "SCHEMA"};
      var known := {",", "*", "=", "<", ">", ">=", "<=", "==", ";", ")", "("};
      Split(a + ops + b, 0, "")
      == [Token(IDENT, a)]
         + (if ops in known then [Token(OPERATOR, ops)]
            else seq(|ops|, k requires 0 <= k < |ops| => Token(OPERATOR, [ops[k]])))
         + [Token(if b in clauses then CLAUSE else IDENT, b)]
  {
    WordThenRun(a, ops, b);
    LastWord(b);
    RunKind(ops);
    WordKind(b);
    hide Split;
  }

  lemma RunKind(ops: string)
    requires ops != "" && forall k :: 0 <= k < |ops| ==> ops[k] in ",>=<*;()"
    ensures Lookup(ops).Some? <==> ops in {",", "*", "=", "<", ">", ">=", "<=", "==", ";", ")", "("}
  {
    assert ops[0] in ",>=<*;()";
  }

  lemma WordKind(w: string)
    requires IsWord(w)
    ensures
      Classify(w).kind
      == if w in {"SELECT", "INSERT", "INTO", "VALUES", "FROM", "WHERE", "CREATE", "TABLE", "SCHEMA"} then CLAUSE
         else IDENT
  {
    assert IsWordChar(w[0]);
  }
}
