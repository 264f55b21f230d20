/** Reading rule text: the tokens and grammar of the part of Python 3.12 that a
    rendered rule uses (Python Language Reference, sections 6.3.4, 6.6, 6.10 and
    6.11). Text outside that part is refused here rather than read some other way. */
module RuleText {
  import opened Values
  import opened Syntax
  import opened Decimal
  import opened Validator

  datatype Token = Word(w: string) | Number(digits: string) | Quote(s: string) | Symbol(sym: string)

  /** Python's keywords: words that are never names. */
  const RESERVED: set<string> := {
    "False", "None", "True", "and", "as", "assert", "async", "await", "break", "class", "continue",
    "def", "del", "elif", "else", "except", "finally", "for", "from", "global", "if", "import", "in",
    "is", "lambda", "nonlocal", "not", "or", "pass", "raise", "return", "try", "while", "with", "yield"
  }

  // ------------------------------------------------------------------ tokens

  function WordRun(s: string): (n: nat)
    ensures n <= |s| && (forall i | 0 <= i < n :: IsWordChar(s[i])) && (n < |s| ==> !IsWordChar(s[n]))
  {
    if s == "" || !IsWordChar(s[0]) then 0 else 1 + WordRun(s[1..])
  }

  /** The distance to the closing quote, if the literal has neither escapes nor
      line breaks. */
  function QuoteRun(s: string): (n: Option<nat>)
    ensures n.Some? ==> n.value < |s| && s[n.value] == '\''
  {
    if s == "" || s[0] == '\\' || s[0] == '\n' then None
    else if s[0] == '\'' then Some(0)
    else
      var rest := QuoteRun(s[1..]);
      if rest.None? then None else Some(1 + rest.value)
  }

  const DOUBLE_SYMBOLS: set<string> := {"==", "!=", ">=", "<="}
  const SINGLE_SYMBOLS: string := "()[],=<>-"

  function Cons(t: Token, rest: Option<seq<Token>>): Option<seq<Token>> {
    if rest.None? then None else Some([t] + rest.value)
  }

  function Lex(s: string): Option<seq<Token>>
    decreases |s|
  {
    if s == "" then Some([])
    else if s[0] == ' ' then Lex(s[1..])
    else if IsWordChar(s[0]) then LexWord(s)
    else if s[0] == '\'' then LexQuote(s)
    else if |s| >= 2 && s[..2] in DOUBLE_SYMBOLS then Cons(Symbol(s[..2]), Lex(s[2..]))
    else if s[0] in SINGLE_SYMBOLS then Cons(Symbol(s[..1]), Lex(s[1..]))
    else None
  }

  /** A run of word characters is a number if it is all digits, and otherwise a word
      unless it starts with a digit or prefixes a string. */
  function LexWord(s: string): Option<seq<Token>>
    requires s != "" && IsWordChar(s[0])
    decreases |s|, 0
  {
    var n := WordRun(s);
    if AllDigits(s[..n]) then
      if n > 1 && s[0] == '0' then None else Cons(Number(s[..n]), Lex(s[n..]))
    else if IsDigit(s[0]) || (n < |s| && (s[n] == '\'' || s[n] == '"')) then None
    else Cons(Word(s[..n]), Lex(s[n..]))
  }

  function LexQuote(s: string): Option<seq<Token>>
    requires s != "" && s[0] == '\''
    decreases |s|, 0
  {
    if |s| >= 3 && s[1] == '\'' && s[2] == '\'' then None
    else
      var n := QuoteRun(s[1..]);
      if n.None? then None else Cons(Quote(s[1..1 + n.value]), Lex(s[2 + n.value..]))
  }

  // ----------------------------------------------------------------- grammar

  datatype Parsed<+T> = Got(v: T, rest: seq<Token>) | Stuck

  datatype Arguments = Arguments(positional: seq<Expr>, named: seq<Keyword>)

  predicate At(ts: seq<Token>, t: Token) {
    ts != [] && ts[0] == t
  }

  /** The comparison operator the tokens begin with, and its length in tokens. */
  function OperatorAt(ts: seq<Token>): Option<(CmpOperator, nat)> {
    if ts == [] then None
    else if ts[0] == Symbol("==") then Some((Eq, 1))
    else if ts[0] == Symbol("!=") then Some((NotEq, 1))
    else if ts[0] == Symbol("<") then Some((Lt, 1))
    else if ts[0] == Symbol("<=") then Some((LtE, 1))
    else if ts[0] == Symbol(">") then Some((Gt, 1))
    else if ts[0] == Symbol(">=") then Some((GtE, 1))
    else if ts[0] == Word("in") then Some((In, 1))
    else if ts[0] == Word("not") && At(ts[1..], Word("in")) then Some((NotIn, 2))
    else None
  }

  function ParseOr(ts: seq<Token>): (p: Parsed<Expr>)
    ensures p.Got? ==> |p.rest| < |ts|
    decreases |ts|, 6
  {
    var first := ParseAnd(ts);
    if first.Stuck? then Stuck
    else
      var more := ParseMore(Or, first.rest);
      if more.Stuck? then Stuck
      else Got(if more.v == [] then first.v else BoolOp(Or, [first.v] + more.v), more.rest)
  }

  function ParseAnd(ts: seq<Token>): (p: Parsed<Expr>)
    ensures p.Got? ==> |p.rest| < |ts|
    decreases |ts|, 5
  {
    var first := ParseNot(ts);
    if first.Stuck? then Stuck
    else
      var more := ParseMore(And, first.rest);
      if more.Stuck? then Stuck
      else Got(if more.v == [] then first.v else BoolOp(And, [first.v] + more.v), more.rest)
  }

  /** The operands after the first of an `or` or an `and`. */
  function ParseMore(op: BoolOperator, ts: seq<Token>): (p: Parsed<seq<Expr>>)
    ensures p.Got? ==> |p.rest| <= |ts|
    decreases |ts|, 7
  {
    if !At(ts, JoinerToken(op)) then Got([], ts)
    else
      var next := if op == Or then ParseAnd(ts[1..]) else ParseNot(ts[1..]);
      if next.Stuck? then Stuck
      else
        var more := ParseMore(op, next.rest);
        if more.Stuck? then Stuck else Got([next.v] + more.v, more.rest)
  }

  function JoinerToken(op: BoolOperator): Token {
    Word(if op == And then "and" else "or")
  }

  function ParseNot(ts: seq<Token>): (p: Parsed<Expr>)
    ensures p.Got? ==> |p.rest| < |ts|
    decreases |ts|, 4
  {
    if At(ts, Word("not")) then
      var inner := ParseNot(ts[1..]);
      if inner.Stuck? then Stuck else Got(UnaryOp(Not, inner.v), inner.rest)
    else ParseComparison(ts)
  }

  function ParseComparison(ts: seq<Token>): (p: Parsed<Expr>)
    ensures p.Got? ==> |p.rest| < |ts|
    decreases |ts|, 3
  {
    var left := ParseOperand(ts);
    if left.Stuck? then Stuck
    else
      var links := ParseLinks(left.rest);
      if links.Stuck? then Stuck
      else Got(if links.v == [] then left.v else Compare(left.v, links.v), links.rest)
  }

  function ParseLinks(ts: seq<Token>): (p: Parsed<seq<Link>>)
    ensures p.Got? ==> |p.rest| <= |ts|
    decreases |ts|, 3
  {
    var op := OperatorAt(ts);
    if op.None? then Got([], ts)
    else
      var operand := ParseOperand(ts[op.value.1..]);
      if operand.Stuck? then Stuck
      else
        var more := ParseLinks(operand.rest);
        if more.Stuck? then Stuck else Got([Link(op.value.0, operand.v)] + more.v, more.rest)
  }

  function ParseOperand(ts: seq<Token>): (p: Parsed<Expr>)
    ensures p.Got? ==> |p.rest| < |ts|
    decreases |ts|, 2
  {
    if At(ts, Symbol("-")) then
      var inner := ParseOperand(ts[1..]);
      if inner.Stuck? then Stuck else Got(UnaryOp(USub, inner.v), inner.rest)
    else ParseAtom(ts)
  }

  function ParseAtom(ts: seq<Token>): (p: Parsed<Expr>)
    ensures p.Got? ==> |p.rest| < |ts|
    decreases |ts|, 1
  {
    if ts == [] then Stuck
    else
      match ts[0]
      case Number(digits) =>
        if NatOf(digits).None? then Stuck else Got(Const(Int(NatOf(digits).value)), ts[1..])
      case Quote(s) => Got(Const(Text(s)), ts[1..])
      case Word(w) =>
        if w == "True" || w == "False" then Got(Const(Bool(w == "True")), ts[1..])
        else if w in RESERVED then Stuck
        else if At(ts[1..], Symbol("(")) then
          var args := ParseArguments(ts[2..], false);
          if args.Stuck? then Stuck else Got(Call(Name(w), args.v.positional, args.v.named), args.rest)
        else Got(Name(w), ts[1..])
      case Symbol(sym) =>
        if sym == "(" then
          var inner := ParseOr(ts[1..]);
          if inner.Stuck? || !At(inner.rest, Symbol(")")) then Stuck else Got(inner.v, inner.rest[1..])
        else if sym == "[" then
          var elts := ParseElements(ts[1..]);
          if elts.Stuck? then Stuck else Got(ListLit(elts.v), elts.rest)
        else Stuck
  }

  /** What follows an opening square bracket, up to and including the closing one. */
  function ParseElements(ts: seq<Token>): (p: Parsed<seq<Expr>>)
    ensures p.Got? ==> |p.rest| <= |ts|
    decreases |ts|, 8
  {
    if At(ts, Symbol("]")) then Got([], ts[1..])
    else
      var first := ParseOr(ts);
      if first.Stuck? then Stuck
      else if At(first.rest, Symbol("]")) then Got([first.v], first.rest[1..])
      else if At(first.rest, Symbol(",")) then
        var more := ParseElements(first.rest[1..]);
        if more.Stuck? then Stuck else Got([first.v] + more.v, more.rest)
      else Stuck
  }

  predicate AtKeyword(ts: seq<Token>) {
    |ts| >= 2 && ts[0].Word? && ts[1] == Symbol("=")
  }

  /** What follows a call's opening parenthesis: positional arguments, then keywords. */
  function ParseArguments(ts: seq<Token>, namedOnly: bool): (p: Parsed<Arguments>)
    ensures p.Got? ==> |p.rest| <= |ts|
    decreases |ts|, 8
  {
    if At(ts, Symbol(")")) then Got(Arguments([], []), ts[1..])
    else
      var named := AtKeyword(ts);
      if (namedOnly && !named) || (named && ts[0].w in RESERVED) then Stuck
      else
        var value := ParseOr(if named then ts[2..] else ts);
        if value.Stuck? then Stuck
        else
          var more := if At(value.rest, Symbol(")")) then Got(Arguments([], []), value.rest[1..])
                      else if At(value.rest, Symbol(",")) then ParseArguments(value.rest[1..], named)
                      else Stuck;
          if more.Stuck? then Stuck
          else if named then
            Got(Arguments(more.v.positional, [Keyword(Some(ts[0].w), value.v)] + more.v.named), more.rest)
          else Got(Arguments([value.v] + more.v.positional, more.v.named), more.rest)
  }

  /** Rule text read as one expression. */
  function ParseText(text: string): Option<Expr> {
    var ts := Lex(text);
    if ts.None? then None
    else
      var p := ParseOr(ts.value);
      if p.Got? && p.rest == [] then Some(p.v) else None
  }
}
