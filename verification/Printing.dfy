/** Printing the trees a structured rule draws, and reading the print back. */
module Printing {
  import opened Values
  import opened Syntax
  import opened Decimal
  import opened Validator
  import opened Structured
  import opened RuleText

  // ------------------------------------------------------- trees that are drawn

  ghost predicate DrawnOperand(e: Expr)
    decreases e
  {
    match e
    case Name(id) => AsciiIdentifier(id)
    case Const(v) => (v.Int? && v.n >= 0) || (v.Text? && SafeText(v.s))
    case UnaryOp(op, x) => op == USub && x.Const? && x.value.Int? && x.value.n > 0
    case ListLit(elts) => forall i | 0 <= i < |elts| :: DrawnOperand(elts[i])
    case Call(f, args, ks) =>
      && f.Name? && AsciiIdentifier(f.id)
      && (forall i | 0 <= i < |args| :: DrawnOperand(args[i]))
      && forall i | 0 <= i < |ks| :: DrawnKeyword(ks[i])
    case _ => false
  }

  ghost predicate DrawnKeyword(k: Keyword)
    decreases k
  {
    k.arg.Some? && AsciiIdentifier(k.arg.value) && DrawnOperand(k.value)
  }

  ghost predicate Drawn(e: Expr)
    decreases e
  {
    match e
    case BoolOp(_, values) => |values| >= 2 && forall i | 0 <= i < |values| :: Drawn(values[i])
    case UnaryOp(op, x) => if op == Not then Drawn(x) else DrawnOperand(e)
    case Compare(left, links) =>
      DrawnOperand(left) && |links| == 1 && DrawnOperand(links[0].operand) && CmpAllowed(links[0].op)
    case _ => DrawnOperand(e)
  }

  // ------------------------------------------------------------ text and tokens

  function OpText(op: CmpOperator): string {
    match op
    case Eq => "=="
    case NotEq => "!="
    case Lt => "<"
    case LtE => "<="
    case Gt => ">"
    case GtE => ">="
    case In => "in"
    case NotIn => "not in"
    case _ => "is"
  }

  function OpTokens(op: CmpOperator): seq<Token> {
    if op == In then [Word("in")]
    else if op == NotIn then [Word("not"), Word("in")]
    else [Symbol(OpText(op))]
  }

  function OperandText(e: Expr): string
    decreases e
  {
    match e
    case Name(id) => id
    case Const(v) => if v.Int? then Str(v.n) else if v.Text? then "'" + v.s + "'" else ""
    case UnaryOp(_, x) => "-" + OperandText(x)
    case ListLit(elts) => "[" + Join(OperandTexts(elts), ", ") + "]"
    case Call(f, args, ks) =>
      (if f.Name? then f.id else "") + "(" + Join(OperandTexts(args) + KeywordTexts(ks), ", ") + ")"
    case _ => ""
  }

  function OperandTexts(es: seq<Expr>): (r: seq<string>)
    ensures |r| == |es|
    decreases es
  {
    if es == [] then [] else [OperandText(es[0])] + OperandTexts(es[1..])
  }

  function KeywordText(k: Keyword): string
    decreases k
  {
    (if k.arg.Some? then k.arg.value + "=" else "") + OperandText(k.value)
  }

  function KeywordTexts(ks: seq<Keyword>): (r: seq<string>)
    ensures |r| == |ks|
    decreases ks
  {
    if ks == [] then [] else [KeywordText(ks[0])] + KeywordTexts(ks[1..])
  }

  function JoinTokens(lists: seq<seq<Token>>, sep: Token): seq<Token> {
    if lists == [] then []
    else if |lists| == 1 then lists[0]
    else lists[0] + [sep] + JoinTokens(lists[1..], sep)
  }

  const COMMA := Symbol(",")

  function OperandTokens(e: Expr): seq<Token>
    decreases e
  {
    match e
    case Name(id) => [Word(id)]
    case Const(v) => if v.Int? && v.n >= 0 then [Number(Digits(v.n))] else if v.Text? then [Quote(v.s)] else []
    case UnaryOp(_, x) => [Symbol("-")] + OperandTokens(x)
    case ListLit(elts) => [Symbol("[")] + JoinTokens(OperandTokenLists(elts), COMMA) + [Symbol("]")]
    case Call(f, args, ks) =>
      [Word(if f.Name? then f.id else ""), Symbol("(")]
      + JoinTokens(OperandTokenLists(args) + KeywordTokenLists(ks), COMMA) + [Symbol(")")]
    case _ => []
  }

  function OperandTokenLists(es: seq<Expr>): (r: seq<seq<Token>>)
    ensures |r| == |es|
    decreases es
  {
    if es == [] then [] else [OperandTokens(es[0])] + OperandTokenLists(es[1..])
  }

  function KeywordTokens(k: Keyword): seq<Token>
    decreases k
  {
    (if k.arg.Some? then [Word(k.arg.value), Symbol("=")] else []) + OperandTokens(k.value)
  }

  function KeywordTokenLists(ks: seq<Keyword>): (r: seq<seq<Token>>)
    ensures |r| == |ks|
    decreases ks
  {
    if ks == [] then [] else [KeywordTokens(ks[0])] + KeywordTokenLists(ks[1..])
  }

  function Joiner(op: BoolOperator): string {
    if op == And then "and" else "or"
  }

  /** A group is in parentheses unless it stands bare at the top. */
  function RuleOf(e: Expr, bare: bool): string
    decreases e
  {
    match e
    case BoolOp(op, values) =>
      var joined := Join(RuleTexts(values), " " + Joiner(op) + " ");
      if bare then joined else "(" + joined + ")"
    case UnaryOp(op, x) => if op == Not then "not (" + RuleOf(x, false) + ")" else OperandText(e)
    case Compare(left, links) =>
      if |links| != 1 then ""
      else OperandText(left) + " " + OpText(links[0].op) + " " + OperandText(links[0].operand)
    case _ => OperandText(e)
  }

  function RuleTexts(es: seq<Expr>): (r: seq<string>)
    ensures |r| == |es|
    decreases es
  {
    if es == [] then [] else [RuleOf(es[0], false)] + RuleTexts(es[1..])
  }

  function RuleTokens(e: Expr, bare: bool): seq<Token>
    decreases e
  {
    match e
    case BoolOp(op, values) =>
      var joined := JoinTokens(RuleTokenLists(values), JoinerToken(op));
      if bare then joined else [Symbol("(")] + joined + [Symbol(")")]
    case UnaryOp(op, x) =>
      if op == Not then [Word("not"), Symbol("(")] + RuleTokens(x, false) + [Symbol(")")] else OperandTokens(e)
    case Compare(left, links) =>
      if |links| != 1 then []
      else OperandTokens(left) + OpTokens(links[0].op) + OperandTokens(links[0].operand)
    case _ => OperandTokens(e)
  }

  function RuleTokenLists(es: seq<Expr>): (r: seq<seq<Token>>)
    ensures |r| == |es|
    decreases es
  {
    if es == [] then [] else [RuleTokens(es[0], false)] + RuleTokenLists(es[1..])
  }

  // -------------------------------------------------------------- lexing back

  /** What may follow a printed part. */
  predicate Ends(rest: string) {
    rest == "" || rest[0] == ' ' || rest[0] == ')' || rest[0] == ',' || rest[0] == ']'
  }

  function Prefix(ts: seq<Token>, rest: Option<seq<Token>>): Option<seq<Token>> {
    if rest.None? then None else Some(ts + rest.value)
  }

  lemma {:induction false} PrefixPrefix(a: seq<Token>, b: seq<Token>, rest: Option<seq<Token>>)
    ensures Prefix(a, Prefix(b, rest)) == Prefix(a + b, rest)
  {
    if rest.Some? {
      assert a + (b + rest.value) == (a + b) + rest.value;
    }
  }

  // The following holds of any lexer; `Lex` is put in at the end.

  type Lexer = string -> Option<seq<Token>>

  /** The text gives these tokens, wherever a printed part may end. */
  ghost predicate Lexes(lex: Lexer, text: string, ts: seq<Token>) {
    forall rest | Ends(rest) :: lex(text + rest) == Prefix(ts, lex(rest))
  }

  /** The text gives these tokens, whatever follows. */
  ghost predicate Leads(lex: Lexer, text: string, ts: seq<Token>) {
    forall rest :: lex(text + rest) == Prefix(ts, lex(rest))
  }

  lemma {:induction false} LeadsThen(lex: Lexer, a: string, ta: seq<Token>, b: string, tb: seq<Token>)
    requires Leads(lex, a, ta) && Lexes(lex, b, tb)
    ensures Lexes(lex, a + b, ta + tb)
  {
    forall rest | Ends(rest) ensures lex(a + b + rest) == Prefix(ta + tb, lex(rest)) {
      assert a + b + rest == a + (b + rest);
      PrefixPrefix(ta, tb, lex(rest));
    }
  }

  lemma {:induction false} LexesThen(lex: Lexer, a: string, ta: seq<Token>, sep: string, tsep: seq<Token>,
                                     b: string, tb: seq<Token>)
    requires Lexes(lex, a, ta) && Leads(lex, sep, tsep) && sep != "" && Ends(sep) && Lexes(lex, b, tb)
    ensures Lexes(lex, a + sep + b, ta + tsep + tb)
  {
    LeadsThen(lex, sep, tsep, b, tb);
    forall rest | Ends(rest) ensures lex(a + sep + b + rest) == Prefix(ta + tsep + tb, lex(rest)) {
      var after := sep + b + rest;
      assert a + sep + b + rest == a + after && after[0] == sep[0];
      PrefixPrefix(ta, tsep + tb, lex(rest));
      assert ta + (tsep + tb) == ta + tsep + tb;
    }
  }

  lemma {:induction false} LexesClosed(lex: Lexer, open: string, topen: seq<Token>, body: string, ts: seq<Token>,
                                       close: string, tclose: seq<Token>)
    requires Leads(lex, open, topen) && Lexes(lex, body, ts) && Leads(lex, close, tclose)
    requires close != "" && Ends(close)
    ensures Leads(lex, open + body + close, topen + ts + tclose)
  {
    forall rest ensures lex(open + body + close + rest) == Prefix(topen + ts + tclose, lex(rest)) {
      var after := close + rest;
      assert open + body + close + rest == open + (body + after) && after[0] == close[0];
      PrefixPrefix(ts, tclose, lex(rest));
      PrefixPrefix(topen, ts + tclose, lex(rest));
      assert topen + (ts + tclose) == topen + ts + tclose;
    }
  }

  lemma {:induction false} LexesNothing(lex: Lexer)
    ensures Lexes(lex, "", [])
  {
    forall rest | Ends(rest) ensures lex("" + rest) == Prefix([], lex(rest)) {
      assert "" + rest == rest;
      assert lex(rest).Some? ==> [] + lex(rest).value == lex(rest).value;
    }
  }

  lemma {:induction false} LexesJoin(lex: Lexer, texts: seq<string>, lists: seq<seq<Token>>, sep: string, t: Token)
    requires |texts| == |lists| && Leads(lex, sep, [t]) && sep != "" && Ends(sep)
    requires forall i | 0 <= i < |texts| :: Lexes(lex, texts[i], lists[i])
    ensures Lexes(lex, Join(texts, sep), JoinTokens(lists, t))
  {
    if texts == [] {
      LexesNothing(lex);
    } else if |texts| > 1 {
      LexesJoin(lex, texts[1..], lists[1..], sep, t);
      LexesThen(lex, texts[0], lists[0], sep, [t], Join(texts[1..], sep), JoinTokens(lists[1..], t));
    }
  }

  lemma {:induction false} LeadsLeads(lex: Lexer, a: string, ta: seq<Token>, b: string, tb: seq<Token>)
    requires Leads(lex, a, ta) && Leads(lex, b, tb)
    ensures Leads(lex, a + b, ta + tb)
  {
    forall rest ensures lex(a + b + rest) == Prefix(ta + tb, lex(rest)) {
      assert a + b + rest == a + (b + rest);
      PrefixPrefix(ta, tb, lex(rest));
    }
  }

  lemma {:induction false} LeadsLexes(lex: Lexer, text: string, ts: seq<Token>)
    requires Leads(lex, text, ts)
    ensures Lexes(lex, text, ts)
  {
  }

  predicate NameEnds(rest: string) {
    rest == "" || (!IsWordChar(rest[0]) && rest[0] != '\'' && rest[0] != '"')
  }

  /** A name is read as one wherever a name may end. */
  ghost predicate ReadsName(lex: Lexer, w: string) {
    forall rest | NameEnds(rest) :: lex(w + rest) == Prefix([Word(w)], lex(rest))
  }

  ghost predicate SkipsSpace(lex: Lexer) {
    forall rest :: lex(" " + rest) == lex(rest)
  }

  ghost predicate ReadsEquals(lex: Lexer) {
    forall rest | rest != "" && rest[0] != '=' :: lex("=" + rest) == Prefix([Symbol("=")], lex(rest))
  }

  /** A word with a space after it, and perhaps one before it. */
  lemma {:induction false} SpacedWordLeads(lex: Lexer, w: string)
    requires ReadsName(lex, w) && SkipsSpace(lex)
    ensures Leads(lex, w + " ", [Word(w)]) && Leads(lex, " " + w + " ", [Word(w)])
  {
    forall rest ensures lex(w + " " + rest) == Prefix([Word(w)], lex(rest)) {
      assert w + " " + rest == w + (" " + rest) && (" " + rest)[0] == ' ';
    }
    forall rest ensures lex(" " + w + " " + rest) == Prefix([Word(w)], lex(rest)) {
      assert " " + w + " " + rest == " " + (w + " " + rest);
    }
  }

  lemma {:induction false} NameThen(lex: Lexer, w: string, text: string, ts: seq<Token>)
    requires ReadsName(lex, w) && Leads(lex, text, ts) && text != "" && NameEnds(text)
    ensures Lexes(lex, w + text, [Word(w)] + ts)
  {
    forall rest | Ends(rest) ensures lex(w + text + rest) == Prefix([Word(w)] + ts, lex(rest)) {
      assert w + text + rest == w + (text + rest) && (text + rest)[0] == text[0];
      PrefixPrefix([Word(w)], ts, lex(rest));
    }
  }

  lemma {:induction false} NameEquals(lex: Lexer, w: string, text: string, ts: seq<Token>)
    requires ReadsName(lex, w) && ReadsEquals(lex) && Lexes(lex, text, ts) && text != "" && text[0] != '='
    ensures Lexes(lex, w + "=" + text, [Word(w), Symbol("=")] + ts)
  {
    forall rest | Ends(rest) ensures lex(w + "=" + text + rest) == Prefix([Word(w), Symbol("=")] + ts, lex(rest)) {
      var value := text + rest;
      assert value[0] == text[0];
      assert w + "=" + text + rest == w + ("=" + value) && ("=" + value)[0] == '=';
      PrefixPrefix([Symbol("=")], ts, lex(rest));
      PrefixPrefix([Word(w)], [Symbol("=")] + ts, lex(rest));
      assert [Word(w)] + ([Symbol("=")] + ts) == [Word(w), Symbol("=")] + ts;
    }
  }

  // -------------------------------------------------- what the lexer does with each

  lemma {:induction false} WordRunOf(w: string, rest: string)
    requires forall i | 0 <= i < |w| :: IsWordChar(w[i])
    requires rest == "" || !IsWordChar(rest[0])
    ensures WordRun(w + rest) == |w|
  {
    if w == "" {
      assert w + rest == rest;
    } else {
      WordRunOf(w[1..], rest);
      assert (w + rest)[1..] == w[1..] + rest;
    }
  }

  lemma {:induction false} QuoteRunOf(s: string, rest: string)
    requires SafeText(s)
    ensures QuoteRun(s + "'" + rest) == Some(|s|)
  {
    var text := s + "'" + rest;
    if s == "" {
      assert text[0] == '\'';
    } else {
      QuoteRunOf(s[1..], rest);
      assert text[1..] == s[1..] + "'" + rest;
    }
  }

  lemma {:induction false} LexName(w: string, rest: string)
    requires AsciiIdentifier(w) && NameEnds(rest)
    ensures Lex(w + rest) == Prefix([Word(w)], Lex(rest))
  {
    WordRunOf(w, rest);
    var s := w + rest;
    assert s[0] == w[0] && s[..|w|] == w && s[|w|..] == rest;
    assert !AllDigits(w) by { assert !IsDigit(w[0]); }
  }

  lemma {:induction false} LexNumber(n: nat, rest: string)
    requires rest == "" || !IsWordChar(rest[0])
    ensures Lex(Digits(n) + rest) == Prefix([Number(Digits(n))], Lex(rest))
  {
    var w := Digits(n);
    DigitsShape(n);
    WordRunOf(w, rest);
    var s := w + rest;
    assert s[0] == w[0] && s[..|w|] == w && s[|w|..] == rest;
    assert |w| > 1 ==> n != 0;
  }

  lemma {:induction false} LexQuoted(t: string, rest: string)
    requires SafeText(t) && Ends(rest)
    ensures Lex("'" + t + "'" + rest) == Prefix([Quote(t)], Lex(rest))
  {
    var s := "'" + t + "'" + rest;
    QuoteRunOf(t, rest);
    assert s[1..] == t + "'" + rest;
    assert s[1..1 + |t|] == t && s[2 + |t|..] == rest;
    assert t != "" ==> s[1] == t[0];
    assert t == "" && rest != "" ==> s[2] == rest[0];
  }

  lemma {:induction false} SymbolLeads(c: char)
    requires c == '(' || c == ')' || c == '[' || c == ']' || c == ',' || c == '-'
    ensures Leads(Lex, [c], [Symbol([c])])
  {
    forall rest ensures Lex([c] + rest) == Prefix([Symbol([c])], Lex(rest)) {
      var s := [c] + rest;
      assert s[1..] == rest && s[..1] == [c];
      if |s| >= 2 {
        assert s[..2][0] == c;
      }
    }
  }

  lemma {:induction false} LexEquals(rest: string)
    requires rest != "" && rest[0] != '='
    ensures Lex("=" + rest) == Prefix([Symbol("=")], Lex(rest))
  {
    var s := "=" + rest;
    assert s[1..] == rest && s[..1] == "=";
    assert s[..2] == ['=', rest[0]];
  }

  lemma {:induction false} LexReadsName(w: string)
    requires AsciiIdentifier(w)
    ensures ReadsName(Lex, w)
  {
    forall rest | NameEnds(rest) ensures Lex(w + rest) == Prefix([Word(w)], Lex(rest)) {
      LexName(w, rest);
    }
  }

  lemma {:induction false} LexSkipsSpace()
    ensures SkipsSpace(Lex)
  {
    forall rest ensures Lex(" " + rest) == Lex(rest) {
      assert (" " + rest)[1..] == rest;
    }
  }

  lemma {:induction false} LexReadsEquals()
    ensures ReadsEquals(Lex)
  {
    forall rest | rest != "" && rest[0] != '=' ensures Lex("=" + rest) == Prefix([Symbol("=")], Lex(rest)) {
      LexEquals(rest);
    }
  }

  lemma {:induction false} CommaSpaceLeads(lex: Lexer)
    requires Leads(lex, ",", [COMMA]) && SkipsSpace(lex)
    ensures Leads(lex, ", ", [COMMA])
  {
    forall rest ensures lex(", " + rest) == Prefix([COMMA], lex(rest)) {
      assert ", " + rest == "," + (" " + rest);
    }
  }

  lemma {:induction false} CommaLeads()
    ensures Leads(Lex, ", ", [COMMA])
  {
    SymbolLeads(',');
    LexSkipsSpace();
    CommaSpaceLeads(Lex);
  }

  lemma {:induction false} WordLeads(w: string)
    requires AsciiIdentifier(w)
    ensures Leads(Lex, w + " ", [Word(w)]) && Leads(Lex, " " + w + " ", [Word(w)])
  {
    LexReadsName(w);
    LexSkipsSpace();
    SpacedWordLeads(Lex, w);
  }

  lemma {:induction false} SymbolOperatorLeads(op: CmpOperator)
    requires CmpAllowed(op) && op != In && op != NotIn
    ensures Leads(Lex, " " + OpText(op) + " ", OpTokens(op))
  {
    forall rest ensures Lex(" " + OpText(op) + " " + rest) == Prefix(OpTokens(op), Lex(rest)) {
      var after := " " + rest;
      assert after[1..] == rest;
      var t := OpText(op) + after;
      assert (" " + OpText(op) + " " + rest)[1..] == t;
      if |OpText(op)| == 2 {
        assert t[..2] == OpText(op) && t[2..] == after;
        assert Lex(t) == Cons(Symbol(OpText(op)), Lex(after));
      } else {
        assert t[..2] == [OpText(op)[0], ' '] && t[..1] == OpText(op) && t[1..] == after;
        assert t[..2] !in DOUBLE_SYMBOLS by { assert t[..2][1] == ' '; }
        assert Lex(t) == Cons(Symbol(OpText(op)), Lex(after));
      }
    }
  }

  lemma {:induction false} OperatorLeads(op: CmpOperator)
    requires CmpAllowed(op)
    ensures Leads(Lex, " " + OpText(op) + " ", OpTokens(op))
  {
    if op == In {
      WordLeads("in");
    } else if op == NotIn {
      NotInLeads();
    } else {
      SymbolOperatorLeads(op);
    }
  }

  lemma {:induction false} NotInLeads()
    ensures Leads(Lex, " " + OpText(NotIn) + " ", OpTokens(NotIn))
  {
    WordLeads("not");
    WordLeads("in");
    LeadsLeads(Lex, " " + "not" + " ", [Word("not")], "in" + " ", [Word("in")]);
    assert (" " + "not" + " ") + ("in" + " ") == " " + OpText(NotIn) + " ";
    assert [Word("not")] + [Word("in")] == OpTokens(NotIn);
  }

  // ------------------------------------------------------------ printed operands

  lemma {:induction false} LexesNumber(n: nat)
    ensures Lexes(Lex, Digits(n), [Number(Digits(n))])
  {
    forall rest | Ends(rest) ensures Lex(Digits(n) + rest) == Prefix([Number(Digits(n))], Lex(rest)) {
      LexNumber(n, rest);
    }
  }

  lemma {:induction false} LexesText(t: string)
    requires SafeText(t)
    ensures Lexes(Lex, "'" + t + "'", [Quote(t)])
  {
    forall rest | Ends(rest) ensures Lex("'" + t + "'" + rest) == Prefix([Quote(t)], Lex(rest)) {
      LexQuoted(t, rest);
    }
  }

  lemma {:induction false} LexesLeaf(e: Expr)
    requires DrawnOperand(e) && (e.Name? || e.Const? || e.UnaryOp?)
    ensures Lexes(Lex, OperandText(e), OperandTokens(e))
  {
    match e
    case Name(id) =>
      LexReadsName(id);
      assert forall rest | Ends(rest) :: NameEnds(rest);
    case Const(v) => if v.Int? { LexesNumber(v.n); } else { LexesText(v.s); }
    case UnaryOp(_, x) =>
      SymbolLeads('-');
      LexesNumber(x.value.n);
      LeadsThen(Lex, "-", [Symbol("-")], Digits(x.value.n), [Number(Digits(x.value.n))]);
  }

  lemma {:induction false} LexesOperand(e: Expr)
    requires DrawnOperand(e)
    ensures Lexes(Lex, OperandText(e), OperandTokens(e))
    decreases e
  {
    match e
    case ListLit(elts) =>
      LexesOperands(elts);
      CommaLeads();
      LexesJoin(Lex, OperandTexts(elts), OperandTokenLists(elts), ", ", COMMA);
      SymbolLeads('[');
      SymbolLeads(']');
      LexesClosed(Lex, "[", [Symbol("[")], Join(OperandTexts(elts), ", "),
                  JoinTokens(OperandTokenLists(elts), COMMA), "]", [Symbol("]")]);
    case Call(f, args, ks) =>
      LexesOperands(args);
      LexesKeywords(ks);
      CommaLeads();
      var texts, lists := OperandTexts(args) + KeywordTexts(ks), OperandTokenLists(args) + KeywordTokenLists(ks);
      LexesJoin(Lex, texts, lists, ", ", COMMA);
      LexesCall(f.id, Join(texts, ", "), JoinTokens(lists, COMMA));
    case _ => LexesLeaf(e);
  }

  lemma {:induction false} CallLexes(lex: Lexer, name: string, body: string, ts: seq<Token>)
    requires ReadsName(lex, name) && Lexes(lex, body, ts)
    requires Leads(lex, "(", [Symbol("(")]) && Leads(lex, ")", [Symbol(")")])
    ensures Lexes(lex, name + "(" + body + ")", [Word(name), Symbol("(")] + ts + [Symbol(")")])
  {
    LexesClosed(lex, "(", [Symbol("(")], body, ts, ")", [Symbol(")")]);
    var inner := [Symbol("(")] + ts + [Symbol(")")];
    var closed := "(" + body + ")";
    assert closed[0] == '(';
    NameThen(lex, name, closed, inner);
    assert name + ("(" + body + ")") == name + "(" + body + ")";
    assert [Word(name)] + inner == [Word(name), Symbol("(")] + ts + [Symbol(")")];
  }

  lemma {:induction false} LexesCall(name: string, body: string, ts: seq<Token>)
    requires AsciiIdentifier(name) && Lexes(Lex, body, ts)
    ensures Lexes(Lex, name + "(" + body + ")", [Word(name), Symbol("(")] + ts + [Symbol(")")])
  {
    SymbolLeads('(');
    SymbolLeads(')');
    LexReadsName(name);
    CallLexes(Lex, name, body, ts);
  }

  lemma {:induction false} LexesOperands(es: seq<Expr>)
    requires forall i | 0 <= i < |es| :: DrawnOperand(es[i])
    ensures forall i | 0 <= i < |es| :: Lexes(Lex, OperandTexts(es)[i], OperandTokenLists(es)[i])
    decreases es
  {
    if es != [] {
      LexesOperand(es[0]);
      LexesOperands(es[1..]);
    }
  }

  lemma {:induction false} OperandStarts(e: Expr)
    requires DrawnOperand(e)
    ensures OperandText(e) != "" && OperandText(e)[0] != '='
  {
    if e.Const? && e.value.Int? {
      DigitsShape(e.value.n);
    }
  }

  lemma {:induction false} LexesKeyword(k: Keyword)
    requires DrawnKeyword(k)
    ensures Lexes(Lex, KeywordText(k), KeywordTokens(k))
    decreases k
  {
    LexesOperand(k.value);
    OperandStarts(k.value);
    LexReadsName(k.arg.value);
    LexReadsEquals();
    NameEquals(Lex, k.arg.value, OperandText(k.value), OperandTokens(k.value));
  }

  lemma {:induction false} LexesKeywords(ks: seq<Keyword>)
    requires forall i | 0 <= i < |ks| :: DrawnKeyword(ks[i])
    ensures forall i | 0 <= i < |ks| :: Lexes(Lex, KeywordTexts(ks)[i], KeywordTokenLists(ks)[i])
    decreases ks
  {
    if ks != [] {
      LexesKeyword(ks[0]);
      LexesKeywords(ks[1..]);
    }
  }

  // --------------------------------------------------------------- printed rules

  /** Lexing a printed rule gives back its tokens. */
  lemma {:induction false} LexesRule(e: Expr, bare: bool)
    requires Drawn(e)
    ensures Lexes(Lex, RuleOf(e, bare), RuleTokens(e, bare))
    decreases e
  {
    SymbolLeads('(');
    SymbolLeads(')');
    match e
    case BoolOp(op, values) =>
      LexesRules(values);
      WordLeads(Joiner(op));
      var body := Join(RuleTexts(values), " " + Joiner(op) + " ");
      var ts := JoinTokens(RuleTokenLists(values), JoinerToken(op));
      LexesJoin(Lex, RuleTexts(values), RuleTokenLists(values), " " + Joiner(op) + " ", JoinerToken(op));
      LexesClosed(Lex, "(", [Symbol("(")], body, ts, ")", [Symbol(")")]);
    case UnaryOp(op, x) =>
      if op == Not {
        LexesRule(x, false);
        LexesNegation(RuleOf(x, false), RuleTokens(x, false));
      } else {
        LexesOperand(e);
      }
    case Compare(left, links) =>
      LexesOperand(left);
      LexesOperand(links[0].operand);
      OperatorLeads(links[0].op);
      LexesComparison(Lex, OperandText(left), OperandTokens(left), OpText(links[0].op), OpTokens(links[0].op),
                      OperandText(links[0].operand), OperandTokens(links[0].operand));
    case _ => LexesOperand(e);
  }

  lemma {:induction false} LexesComparison(lex: Lexer, a: string, ta: seq<Token>, op: string, top: seq<Token>,
                                           b: string, tb: seq<Token>)
    requires Lexes(lex, a, ta) && Lexes(lex, b, tb) && Leads(lex, " " + op + " ", top)
    ensures Lexes(lex, a + " " + op + " " + b, ta + top + tb)
  {
    var sep := " " + op + " ";
    LexesThen(lex, a, ta, sep, top, b, tb);
    assert a + sep + b == a + " " + op + " " + b;
  }

  lemma {:induction false} LexesNegation(body: string, ts: seq<Token>)
    requires Lexes(Lex, body, ts)
    ensures Lexes(Lex, "not (" + body + ")", [Word("not"), Symbol("(")] + ts + [Symbol(")")])
  {
    SymbolLeads('(');
    SymbolLeads(')');
    WordLeads("not");
    LexesClosed(Lex, "(", [Symbol("(")], body, ts, ")", [Symbol(")")]);
    var inner := [Symbol("(")] + ts + [Symbol(")")];
    LeadsLexes(Lex, "(" + body + ")", inner);
    assert "not" + " " == "not ";
    LeadsThen(Lex, "not ", [Word("not")], "(" + body + ")", inner);
    assert "not " + ("(" + body + ")") == "not (" + body + ")";
    assert [Word("not")] + inner == [Word("not"), Symbol("(")] + ts + [Symbol(")")];
  }

  lemma {:induction false} LexesRules(es: seq<Expr>)
    requires forall i | 0 <= i < |es| :: Drawn(es[i])
    ensures forall i | 0 <= i < |es| :: Lexes(Lex, RuleTexts(es)[i], RuleTokenLists(es)[i])
    decreases es
  {
    if es != [] {
      LexesRule(es[0], false);
      LexesRules(es[1..]);
    }
  }

  lemma {:induction false} LexPrinted(e: Expr, bare: bool)
    requires Drawn(e)
    ensures Lex(RuleOf(e, bare)) == Some(RuleTokens(e, bare))
  {
    LexesRule(e, bare);
    assert Lex(RuleOf(e, bare) + "") == Prefix(RuleTokens(e, bare), Lex(""));
    assert RuleOf(e, bare) + "" == RuleOf(e, bare);
    assert RuleTokens(e, bare) + [] == RuleTokens(e, bare);
  }
}
