/** Parsing the tokens of a printed rule gives the rule back. */
module ParsingBack {
  import opened Values
  import opened Syntax
  import opened Decimal
  import opened Validator
  import opened RuleText
  import opened Printing

  // ------------------------------------------------------- no keyword as a name

  ghost predicate Unreserved(e: Expr)
    decreases e
  {
    match e
    case Name(id) => id !in RESERVED
    case BoolOp(_, values) => forall i | 0 <= i < |values| :: Unreserved(values[i])
    case UnaryOp(_, x) => Unreserved(x)
    case Compare(left, links) => Unreserved(left) && forall i | 0 <= i < |links| :: UnreservedLink(links[i])
    case Call(f, args, ks) =>
      && Unreserved(f)
      && (forall i | 0 <= i < |args| :: Unreserved(args[i]))
      && forall i | 0 <= i < |ks| :: UnreservedKeyword(ks[i])
    case ListLit(elts) => forall i | 0 <= i < |elts| :: Unreserved(elts[i])
    case _ => true
  }

  ghost predicate UnreservedLink(l: Link)
    decreases l
  {
    Unreserved(l.operand)
  }

  ghost predicate UnreservedKeyword(k: Keyword)
    decreases k
  {
    k.arg.Some? && k.arg.value !in RESERVED && Unreserved(k.value)
  }

  // ------------------------------------------------------------ what may follow

  const OPEN := Symbol("(")
  const CLOSE := Symbol(")")
  const BRACKET := Symbol("]")

  /** What follows an operand inside a list or a call. */
  predicate Stops(rest: seq<Token>) {
    rest == [] || rest[0] == COMMA || rest[0] == CLOSE || rest[0] == BRACKET
  }

  /** What follows a part of a group. */
  predicate FollowsPart(rest: seq<Token>) {
    rest == [] || rest[0] == Word("and") || rest[0] == Word("or") || rest[0] == CLOSE
  }

  predicate FollowsRule(rest: seq<Token>) {
    rest == [] || rest[0] == CLOSE
  }

  lemma {:induction false} LinksStop(rest: seq<Token>)
    requires Stops(rest) || FollowsPart(rest)
    ensures ParseLinks(rest) == Got([], rest)
  {
  }

  lemma {:induction false} NotLift(ts: seq<Token>, e: Expr, rest: seq<Token>)
    requires ParseOperand(ts) == Got(e, rest) && !At(ts, Word("not")) && (Stops(rest) || FollowsPart(rest))
    ensures ParseNot(ts) == Got(e, rest)
  {
    LinksStop(rest);
    assert ParseComparison(ts) == Got(e, rest);
  }

  lemma {:induction false} AndLift(ts: seq<Token>, e: Expr, rest: seq<Token>)
    requires ParseNot(ts) == Got(e, rest) && !At(rest, Word("and"))
    ensures ParseAnd(ts) == Got(e, rest)
  {
    assert ParseMore(And, rest) == Got([], rest);
  }

  lemma {:induction false} OrLift(ts: seq<Token>, e: Expr, rest: seq<Token>)
    requires ParseAnd(ts) == Got(e, rest) && !At(rest, Word("or"))
    ensures ParseOr(ts) == Got(e, rest)
  {
    assert ParseMore(Or, rest) == Got([], rest);
  }

  lemma {:induction false} OperandLift(ts: seq<Token>, e: Expr, rest: seq<Token>)
    requires ParseOperand(ts) == Got(e, rest) && !At(ts, Word("not")) && Stops(rest)
    ensures ParseOr(ts) == Got(e, rest)
  {
    NotLift(ts, e, rest);
    AndLift(ts, e, rest);
    OrLift(ts, e, rest);
  }

  // ------------------------------------------------------------------- operands

  /** How a printed operand begins: never like a `not`, a closing or a keyword. */
  lemma {:induction false} OperandBegins(e: Expr, rest: seq<Token>)
    requires DrawnOperand(e) && Unreserved(e) && Stops(rest)
    ensures OperandTokens(e) != []
    ensures var ts := OperandTokens(e) + rest;
            !At(ts, Word("not")) && !At(ts, CLOSE) && !At(ts, BRACKET) && !AtKeyword(ts)
  {
    var ts := OperandTokens(e) + rest;
    assert ts[0] == OperandTokens(e)[0];
    if e.Name? {
      assert |ts| >= 2 ==> ts[1] == rest[0];
    } else if e.Call? {
      assert ts[1] == OPEN;
    }
  }

  /** What is left of a printed list of items after its first one. */
  function ItemsTail(lists: seq<seq<Token>>, close: Token, rest: seq<Token>): seq<Token> {
    if lists == [] then [close] + rest else [COMMA] + ItemsFrom(lists, close, rest)
  }

  function ItemsFrom(lists: seq<seq<Token>>, close: Token, rest: seq<Token>): seq<Token> {
    JoinTokens(lists, COMMA) + [close] + rest
  }

  lemma {:induction false} ItemsSplit(lists: seq<seq<Token>>, close: Token, rest: seq<Token>)
    requires lists != [] && (close == CLOSE || close == BRACKET)
    ensures ItemsFrom(lists, close, rest) == lists[0] + ItemsTail(lists[1..], close, rest)
    ensures var tail := ItemsTail(lists[1..], close, rest);
            && tail != [] && Stops(tail)
            && tail[0] == (if |lists| == 1 then close else COMMA)
            && tail[1..] == (if |lists| == 1 then rest else ItemsFrom(lists[1..], close, rest))
  {
  }

  lemma {:induction false} NoItems(close: Token, rest: seq<Token>)
    ensures ItemsFrom([], close, rest) == [close] + rest && ItemsFrom([], close, rest)[1..] == rest
  {
  }

  lemma {:induction false} ListTokens(elts: seq<Expr>, rest: seq<Token>)
    ensures OperandTokens(ListLit(elts)) + rest == [Symbol("[")] + ItemsFrom(OperandTokenLists(elts), BRACKET, rest)
  {
  }

  lemma {:induction false} CallTokens(name: string, args: seq<Expr>, ks: seq<Keyword>, rest: seq<Token>)
    ensures OperandTokens(Call(Name(name), args, ks)) + rest
         == [Word(name), OPEN] + ItemsFrom(ArgumentLists(args, ks), CLOSE, rest)
  {
  }

  lemma {:induction false} LeafParses(e: Expr, rest: seq<Token>)
    requires DrawnOperand(e) && Unreserved(e) && !At(rest, OPEN) && (e.Name? || e.Const?)
    ensures ParseOperand(OperandTokens(e) + rest) == Got(e, rest)
  {
    assert (OperandTokens(e) + rest)[1..] == rest;
    if e.Const? && e.value.Int? {
      NatOfDigits(e.value.n);
    }
  }

  lemma {:induction false} NegativeParses(x: Expr, ts: seq<Token>, rest: seq<Token>)
    requires ParseOperand(ts) == Got(x, rest)
    ensures ParseOperand([Symbol("-")] + ts) == Got(UnaryOp(USub, x), rest)
  {
    assert ([Symbol("-")] + ts)[1..] == ts;
  }

  lemma {:induction false} ListParses(elts: seq<Expr>, inside: seq<Token>, rest: seq<Token>)
    requires ParseElements(inside) == Got(elts, rest)
    ensures ParseOperand([Symbol("[")] + inside) == Got(ListLit(elts), rest)
  {
    var ts := [Symbol("[")] + inside;
    assert ts[1..] == inside;
    assert ParseAtom(ts) == Got(ListLit(elts), rest);
  }

  lemma {:induction false} CallParses(name: string, args: Arguments, inside: seq<Token>, rest: seq<Token>)
    requires name !in RESERVED && ParseArguments(inside, false) == Got(args, rest)
    ensures ParseOperand([Word(name), OPEN] + inside) == Got(Call(Name(name), args.positional, args.named), rest)
  {
    var ts := [Word(name), OPEN] + inside;
    assert ts[2..] == inside && ts[1..][0] == OPEN;
    assert ParseAtom(ts) == Got(Call(Name(name), args.positional, args.named), rest);
  }

  lemma {:induction false} OperandParses(e: Expr, rest: seq<Token>)
    requires DrawnOperand(e) && Unreserved(e) && !At(rest, OPEN)
    ensures ParseOperand(OperandTokens(e) + rest) == Got(e, rest)
    decreases e, 1
  {
    match e
    case UnaryOp(_, x) =>
      LeafParses(x, rest);
      NegativeParses(x, OperandTokens(x) + rest, rest);
      assert OperandTokens(e) + rest == [Symbol("-")] + (OperandTokens(x) + rest);
    case ListLit(elts) =>
      ElementsParse(elts, rest);
      ListParses(elts, ItemsFrom(OperandTokenLists(elts), BRACKET, rest), rest);
      ListTokens(elts, rest);
    case Call(f, args, ks) =>
      KeywordsParse(ks, rest, false);
      ArgumentsParse(args, ks, rest);
      CallParses(f.id, Arguments(args, ks), ItemsFrom(ArgumentLists(args, ks), CLOSE, rest), rest);
      CallTokens(f.id, args, ks, rest);
    case _ => LeafParses(e, rest);
  }

  /** An element parses, and leaves what follows it. */
  lemma {:induction false} ItemParses(e: Expr, rest: seq<Token>)
    requires DrawnOperand(e) && Unreserved(e) && rest != [] && Stops(rest)
    ensures ParseOr(OperandTokens(e) + rest) == Got(e, rest)
    decreases e, 2
  {
    OperandParses(e, rest);
    OperandBegins(e, rest);
    OperandLift(OperandTokens(e) + rest, e, rest);
  }

  lemma {:induction false} ElementStep(ts: seq<Token>, e: Expr, tail: seq<Token>, more: seq<Expr>, rest: seq<Token>)
    requires !At(ts, BRACKET) && ParseOr(ts) == Got(e, tail)
    requires || (At(tail, BRACKET) && more == [] && rest == tail[1..])
             || (At(tail, COMMA) && ParseElements(tail[1..]) == Got(more, rest))
    ensures ParseElements(ts) == Got([e] + more, rest)
  {
    assert [e] + [] == [e];
  }

  /** The tokens of a list's elements: the first one's, then what follows it. */
  lemma {:induction false} ElementTokens(es: seq<Expr>, rest: seq<Token>)
    requires es != []
    ensures var lists := OperandTokenLists(es[1..]);
            var tail := ItemsTail(lists, BRACKET, rest);
            && ItemsFrom(OperandTokenLists(es), BRACKET, rest) == OperandTokens(es[0]) + tail
            && tail != [] && Stops(tail)
            && (es[1..] == [] ==> At(tail, BRACKET) && rest == tail[1..])
            && (es[1..] != [] ==> At(tail, COMMA) && tail[1..] == ItemsFrom(lists, BRACKET, rest))
  {
    var lists := OperandTokenLists(es);
    assert lists[0] == OperandTokens(es[0]) && lists[1..] == OperandTokenLists(es[1..]);
    ItemsSplit(lists, BRACKET, rest);
  }

  lemma {:induction false} FirstElement(ts: seq<Token>, es: seq<Expr>, tail: seq<Token>, rest: seq<Token>)
    requires es != [] && !At(ts, BRACKET) && ParseOr(ts) == Got(es[0], tail)
    requires || (At(tail, BRACKET) && es[1..] == [] && rest == tail[1..])
             || (At(tail, COMMA) && ParseElements(tail[1..]) == Got(es[1..], rest))
    ensures ParseElements(ts) == Got(es, rest)
  {
    ElementStep(ts, es[0], tail, es[1..], rest);
    assert es == [es[0]] + es[1..];
  }

  lemma {:induction false} ElementsParse(es: seq<Expr>, rest: seq<Token>)
    requires forall i | 0 <= i < |es| :: DrawnOperand(es[i]) && Unreserved(es[i])
    ensures ParseElements(ItemsFrom(OperandTokenLists(es), BRACKET, rest)) == Got(es, rest)
    decreases es, 0
  {
    if es == [] {
      NoItems(BRACKET, rest);
    } else {
      var tail := ItemsTail(OperandTokenLists(es[1..]), BRACKET, rest);
      ElementTokens(es, rest);
      ItemParses(es[0], tail);
      OperandBegins(es[0], tail);
      if es[1..] != [] {
        ElementsParse(es[1..], rest);
      }
      FirstElement(OperandTokens(es[0]) + tail, es, tail, rest);
    }
  }

  /** One positional argument, then the rest of the call. */
  lemma {:induction false} PositionalStep(ts: seq<Token>, e: Expr, tail: seq<Token>, more: Arguments, rest: seq<Token>)
    requires !At(ts, CLOSE) && !AtKeyword(ts) && ParseOr(ts) == Got(e, tail)
    requires || (At(tail, CLOSE) && more == Arguments([], []) && rest == tail[1..])
             || (At(tail, COMMA) && ParseArguments(tail[1..], false) == Got(more, rest))
    ensures ParseArguments(ts, false) == Got(Arguments([e] + more.positional, more.named), rest)
  {
  }

  /** One keyword argument, then the rest of the call. */
  lemma {:induction false} NamedStep(ts: seq<Token>, namedOnly: bool, key: string, e: Expr, tail: seq<Token>,
                                     more: Arguments, rest: seq<Token>)
    requires |ts| >= 2 && ts[0] == Word(key) && ts[1] == Symbol("=") && key !in RESERVED
    requires ParseOr(ts[2..]) == Got(e, tail)
    requires || (At(tail, CLOSE) && more == Arguments([], []) && rest == tail[1..])
             || (At(tail, COMMA) && ParseArguments(tail[1..], true) == Got(more, rest))
    ensures ParseArguments(ts, namedOnly) == Got(Arguments(more.positional, [Keyword(Some(key), e)] + more.named), rest)
  {
    assert !At(ts, CLOSE) && AtKeyword(ts);
  }

  function ArgumentLists(es: seq<Expr>, ks: seq<Keyword>): (r: seq<seq<Token>>)
    ensures |r| == |es| + |ks|
  {
    OperandTokenLists(es) + KeywordTokenLists(ks)
  }

  lemma {:induction false} ArgumentListsSplit(es: seq<Expr>, ks: seq<Keyword>)
    ensures es == [] ==> ArgumentLists(es, ks) == KeywordTokenLists(ks)
    ensures es != [] ==> ArgumentLists(es, ks)[0] == OperandTokens(es[0])
    ensures es != [] ==> ArgumentLists(es, ks)[1..] == ArgumentLists(es[1..], ks)
  {
  }

  lemma {:induction false} ArgumentsParse(es: seq<Expr>, ks: seq<Keyword>, rest: seq<Token>)
    requires forall i | 0 <= i < |es| :: DrawnOperand(es[i]) && Unreserved(es[i])
    requires ParseArguments(ItemsFrom(KeywordTokenLists(ks), CLOSE, rest), false) == Got(Arguments([], ks), rest)
    ensures ParseArguments(ItemsFrom(ArgumentLists(es, ks), CLOSE, rest), false) == Got(Arguments(es, ks), rest)
    decreases es, 0
  {
    if es == [] {
      ArgumentListsSplit(es, ks);
    } else {
      var tail := ItemsTail(ArgumentLists(es[1..], ks), CLOSE, rest);
      TailStops(ArgumentLists(es[1..], ks), rest);
      ItemParses(es[0], tail);
      OperandBegins(es[0], tail);
      ArgumentsParse(es[1..], ks, rest);
      FirstArgumentParses(es, ks, rest);
    }
  }

  lemma {:induction false} TailStops(lists: seq<seq<Token>>, rest: seq<Token>)
    ensures ItemsTail(lists, CLOSE, rest) != [] && Stops(ItemsTail(lists, CLOSE, rest))
  {
  }

  /** The tokens of a call's arguments: the first one's, then what follows it. */
  lemma {:induction false} ArgumentTokens(es: seq<Expr>, ks: seq<Keyword>, rest: seq<Token>)
    requires es != []
    ensures var lists := ArgumentLists(es[1..], ks);
            var tail := ItemsTail(lists, CLOSE, rest);
            && ItemsFrom(ArgumentLists(es, ks), CLOSE, rest) == OperandTokens(es[0]) + tail
            && (lists == [] ==> At(tail, CLOSE) && rest == tail[1..] && es[1..] == [] && ks == [])
            && (lists != [] ==> At(tail, COMMA) && tail[1..] == ItemsFrom(lists, CLOSE, rest))
  {
    ArgumentListsSplit(es, ks);
    ItemsSplit(ArgumentLists(es, ks), CLOSE, rest);
  }

  lemma {:induction false} FirstArgumentParses(es: seq<Expr>, ks: seq<Keyword>, rest: seq<Token>)
    requires es != []
    requires var tail := ItemsTail(ArgumentLists(es[1..], ks), CLOSE, rest);
             var ts := OperandTokens(es[0]) + tail;
             ParseOr(ts) == Got(es[0], tail) && !At(ts, CLOSE) && !AtKeyword(ts)
    requires ParseArguments(ItemsFrom(ArgumentLists(es[1..], ks), CLOSE, rest), false)
          == Got(Arguments(es[1..], ks), rest)
    ensures ParseArguments(ItemsFrom(ArgumentLists(es, ks), CLOSE, rest), false) == Got(Arguments(es, ks), rest)
  {
    var tail := ItemsTail(ArgumentLists(es[1..], ks), CLOSE, rest);
    ArgumentTokens(es, ks, rest);
    FirstPositional(OperandTokens(es[0]) + tail, es, ks, tail, rest);
  }

  lemma {:induction false} FirstPositional(ts: seq<Token>, es: seq<Expr>, ks: seq<Keyword>, tail: seq<Token>,
                                           rest: seq<Token>)
    requires es != [] && !At(ts, CLOSE) && !AtKeyword(ts) && ParseOr(ts) == Got(es[0], tail)
    requires || (At(tail, CLOSE) && es[1..] == [] && ks == [] && rest == tail[1..])
             || (At(tail, COMMA) && ParseArguments(tail[1..], false) == Got(Arguments(es[1..], ks), rest))
    ensures ParseArguments(ts, false) == Got(Arguments(es, ks), rest)
  {
    PositionalStep(ts, es[0], tail, Arguments(es[1..], ks), rest);
    assert es == [es[0]] + es[1..];
  }

  lemma {:induction false} KeywordSplit(k: Keyword, tail: seq<Token>)
    requires k.arg.Some?
    ensures var ts := KeywordTokens(k) + tail;
            |ts| >= 2 && ts[0] == Word(k.arg.value) && ts[1] == Symbol("=") && ts[2..] == OperandTokens(k.value) + tail
  {
  }

  lemma {:induction false} KeywordsParse(ks: seq<Keyword>, rest: seq<Token>, namedOnly: bool)
    requires forall i | 0 <= i < |ks| :: DrawnKeyword(ks[i]) && UnreservedKeyword(ks[i])
    ensures ParseArguments(ItemsFrom(KeywordTokenLists(ks), CLOSE, rest), namedOnly) == Got(Arguments([], ks), rest)
    decreases ks, 0
  {
    var lists := KeywordTokenLists(ks);
    if ks == [] {
      NoItems(CLOSE, rest);
    } else {
      assert (ks decreases to ks[0]);
      ItemsSplit(lists, CLOSE, rest);
      assert lists[1..] == KeywordTokenLists(ks[1..]);
      var k, tail := ks[0], ItemsTail(lists[1..], CLOSE, rest);
      KeywordSplit(k, tail);
      ItemParses(k.value, tail);
      if |ks| > 1 {
        KeywordsParse(ks[1..], rest, true);
      }
      NamedStep(ItemsFrom(lists, CLOSE, rest), namedOnly, k.arg.value, k.value, tail, Arguments([], ks[1..]), rest);
      assert ks == [k] + ks[1..] && k == Keyword(Some(k.arg.value), k.value);
    }
  }

  // ---------------------------------------------------------------------- rules

  lemma {:induction false} ParenthesisedParses(inside: seq<Token>, e: Expr, rest: seq<Token>)
    requires ParseOr(inside + ([CLOSE] + rest)) == Got(e, [CLOSE] + rest) && FollowsPart(rest)
    ensures ParseNot([OPEN] + inside + [CLOSE] + rest) == Got(e, rest)
  {
    var ts := [OPEN] + inside + [CLOSE] + rest;
    assert ts[1..] == inside + ([CLOSE] + rest);
    assert ([CLOSE] + rest)[1..] == rest;
    assert ParseAtom(ts) == Got(e, rest);
    NotLift(ts, e, rest);
  }

  lemma {:induction false} ComparisonParses(e: Expr, rest: seq<Token>)
    requires e.Compare? && Drawn(e) && Unreserved(e) && FollowsPart(rest)
    ensures ParseNot(RuleTokens(e, false) + rest) == Got(e, rest)
  {
    var left, op, right := e.left, e.links[0].op, e.links[0].operand;
    assert UnreservedLink(e.links[0]);
    var ts := RuleTokens(e, false) + rest;
    var tail := OpTokens(op) + (OperandTokens(right) + rest);
    assert ts == OperandTokens(left) + tail;
    OperandParses(left, tail);
    OperandParses(right, rest);
    OperandBegins(left, []);
    assert OperandTokens(left) + [] == OperandTokens(left);
    assert ts[0] == OperandTokens(left)[0];
    LinkParses(op, right, rest);
    assert e.links == [Link(op, right)];
  }

  lemma {:induction false} LinkParses(op: CmpOperator, right: Expr, rest: seq<Token>)
    requires CmpAllowed(op) && FollowsPart(rest) && ParseOperand(OperandTokens(right) + rest) == Got(right, rest)
    ensures ParseLinks(OpTokens(op) + (OperandTokens(right) + rest)) == Got([Link(op, right)], rest)
  {
    var after := OperandTokens(right) + rest;
    var ts := OpTokens(op) + after;
    OperatorRead(op, after);
    assert ts[|OpTokens(op)|..] == after;
    LinksStop(rest);
    assert [Link(op, right)] + [] == [Link(op, right)];
  }

  lemma {:induction false} OperatorRead(op: CmpOperator, after: seq<Token>)
    requires CmpAllowed(op)
    ensures OperatorAt(OpTokens(op) + after) == Some((op, |OpTokens(op)|))
  {
    var ts := OpTokens(op) + after;
    if op == NotIn {
      assert ts[1..][0] == Word("in");
    }
  }

  lemma {:induction false} NegationParses(x: Expr, inside: seq<Token>, rest: seq<Token>)
    requires ParseNot(inside + ([CLOSE] + rest)) == Got(x, [CLOSE] + rest) && FollowsPart(rest)
    ensures ParseNot([Word("not"), OPEN] + inside + [CLOSE] + rest) == Got(UnaryOp(Not, x), rest)
  {
    AndLift(inside + ([CLOSE] + rest), x, [CLOSE] + rest);
    OrLift(inside + ([CLOSE] + rest), x, [CLOSE] + rest);
    ParenthesisedParses(inside, x, rest);
    assert ([Word("not"), OPEN] + inside + [CLOSE] + rest)[1..] == [OPEN] + inside + [CLOSE] + rest;
  }

  /** One part of a group, or a whole rule in parentheses. */
  lemma {:induction false} PartParses(e: Expr, rest: seq<Token>)
    requires Drawn(e) && Unreserved(e) && FollowsPart(rest)
    ensures ParseNot(RuleTokens(e, false) + rest) == Got(e, rest)
    decreases e, 1
  {
    match e
    case BoolOp(op, values) =>
      GroupParses(e, [CLOSE] + rest);
      ParenthesisedParses(JoinTokens(RuleTokenLists(values), JoinerToken(op)), e, rest);
    case Compare(_, _) => ComparisonParses(e, rest);
    case UnaryOp(op, x) =>
      if op == Not {
        PartParses(x, [CLOSE] + rest);
        NegationParses(x, RuleTokens(x, false), rest);
      } else {
        OperandPartParses(e, rest);
      }
    case _ => OperandPartParses(e, rest);
  }

  lemma {:induction false} OperandPartParses(e: Expr, rest: seq<Token>)
    requires DrawnOperand(e) && Unreserved(e) && FollowsPart(rest)
    ensures ParseNot(OperandTokens(e) + rest) == Got(e, rest)
  {
    OperandParses(e, rest);
    OperandBegins(e, []);
    assert OperandTokens(e) + [] == OperandTokens(e);
    assert (OperandTokens(e) + rest)[0] == OperandTokens(e)[0];
    NotLift(OperandTokens(e) + rest, e, rest);
  }

  /** A part as an operand of its group: `or` takes whole conjunctions. */
  lemma {:induction false} MemberParses(op: BoolOperator, e: Expr, rest: seq<Token>)
    requires Drawn(e) && Unreserved(e) && (FollowsRule(rest) || rest[0] == JoinerToken(op))
    ensures op == And ==> ParseNot(RuleTokens(e, false) + rest) == Got(e, rest)
    ensures op == Or ==> ParseAnd(RuleTokens(e, false) + rest) == Got(e, rest)
    decreases e, 2
  {
    PartParses(e, rest);
    if op == Or {
      AndLift(RuleTokens(e, false) + rest, e, rest);
    }
  }

  lemma {:induction false} MoreStep(op: BoolOperator, ts: seq<Token>, e: Expr, tail: seq<Token>, es: seq<Expr>,
                                    rest: seq<Token>)
    requires At(ts, JoinerToken(op)) && (if op == Or then ParseAnd(ts[1..]) else ParseNot(ts[1..])) == Got(e, tail)
    requires ParseMore(op, tail) == Got(es, rest)
    ensures ParseMore(op, ts) == Got([e] + es, rest)
  {
  }

  /** A printed group, from its first part on, and from its first joiner on. */
  function GroupFrom(op: BoolOperator, es: seq<Expr>, rest: seq<Token>): seq<Token> {
    JoinTokens(RuleTokenLists(es), JoinerToken(op)) + rest
  }

  function GroupTail(op: BoolOperator, es: seq<Expr>, rest: seq<Token>): seq<Token> {
    if es == [] then rest else [JoinerToken(op)] + GroupFrom(op, es, rest)
  }

  lemma {:induction false} GroupSplit(op: BoolOperator, es: seq<Expr>, rest: seq<Token>)
    requires es != [] && FollowsRule(rest)
    ensures GroupFrom(op, es, rest) == RuleTokens(es[0], false) + GroupTail(op, es[1..], rest)
    ensures var tail := GroupTail(op, es, rest); At(tail, JoinerToken(op)) && tail[1..] == GroupFrom(op, es, rest)
  {
    RuleListsSplit(es);
    JoinSplit(RuleTokenLists(es), JoinerToken(op), rest);
  }

  lemma {:induction false} RuleListsSplit(es: seq<Expr>)
    requires es != []
    ensures RuleTokenLists(es)[0] == RuleTokens(es[0], false) && RuleTokenLists(es)[1..] == RuleTokenLists(es[1..])
  {
    assert ([RuleTokens(es[0], false)] + RuleTokenLists(es[1..]))[1..] == RuleTokenLists(es[1..]);
  }

  lemma {:induction false} JoinSplit(lists: seq<seq<Token>>, sep: Token, rest: seq<Token>)
    requires lists != []
    ensures JoinTokens(lists, sep) + rest
         == lists[0] + (if lists[1..] == [] then rest else [sep] + (JoinTokens(lists[1..], sep) + rest))
  {
    if |lists| > 1 {
      var more := JoinTokens(lists[1..], sep);
      assert lists[0] + [sep] + more + rest == lists[0] + ([sep] + (more + rest));
    }
  }

  lemma {:induction false} MoreParse(op: BoolOperator, es: seq<Expr>, rest: seq<Token>)
    requires FollowsRule(rest)
    requires forall i | 0 <= i < |es| :: Drawn(es[i]) && Unreserved(es[i])
    ensures ParseMore(op, GroupTail(op, es, rest)) == Got(es, rest)
    decreases es, 0
  {
    if es != [] {
      MemberParses(op, es[0], GroupTail(op, es[1..], rest));
      MoreParse(op, es[1..], rest);
      NextParses(op, es, rest);
    }
  }

  lemma {:induction false} NextParses(op: BoolOperator, es: seq<Expr>, rest: seq<Token>)
    requires es != [] && FollowsRule(rest)
    requires var ts, tail := RuleTokens(es[0], false) + GroupTail(op, es[1..], rest), GroupTail(op, es[1..], rest);
             && (if op == Or then ParseAnd(ts) else ParseNot(ts)) == Got(es[0], tail)
             && ParseMore(op, tail) == Got(es[1..], rest)
    ensures ParseMore(op, GroupTail(op, es, rest)) == Got(es, rest)
  {
    GroupSplit(op, es, rest);
    MoreStep(op, GroupTail(op, es, rest), es[0], GroupTail(op, es[1..], rest), es[1..], rest);
    assert es == [es[0]] + es[1..];
  }

  lemma {:induction false} GroupStep(op: BoolOperator, ts: seq<Token>, first: Expr, tail: seq<Token>, es: seq<Expr>,
                                     rest: seq<Token>)
    requires (if op == Or then ParseAnd(ts) else ParseNot(ts)) == Got(first, tail)
    requires es != [] && ParseMore(op, tail) == Got(es, rest) && FollowsRule(rest)
    ensures ParseOr(ts) == Got(BoolOp(op, [first] + es), rest)
  {
    if op == And {
      assert ParseAnd(ts) == Got(BoolOp(op, [first] + es), rest);
      OrLift(ts, BoolOp(op, [first] + es), rest);
    }
  }

  lemma {:induction false} GroupJoins(op: BoolOperator, es: seq<Expr>, ts: seq<Token>, tail: seq<Token>,
                                      rest: seq<Token>)
    requires |es| >= 2 && FollowsRule(rest)
    requires (if op == Or then ParseAnd(ts) else ParseNot(ts)) == Got(es[0], tail)
    requires ParseMore(op, tail) == Got(es[1..], rest)
    ensures ParseOr(ts) == Got(BoolOp(op, es), rest)
  {
    GroupStep(op, ts, es[0], tail, es[1..], rest);
    assert es == [es[0]] + es[1..];
  }

  /** A group standing bare, at the top or inside its parentheses. */
  lemma {:induction false} GroupParses(e: Expr, rest: seq<Token>)
    requires e.BoolOp? && Drawn(e) && Unreserved(e) && FollowsRule(rest)
    ensures ParseOr(GroupFrom(e.bop, e.values, rest)) == Got(e, rest)
    decreases e, 0
  {
    var op, es := e.bop, e.values;
    var tail := GroupTail(op, es[1..], rest);
    MemberParses(op, es[0], tail);
    MoreParse(op, es[1..], rest);
    GroupSplit(op, es, rest);
    GroupJoins(op, es, GroupFrom(op, es, rest), tail, rest);
  }

  /** A drawn rule without reserved names is what its print parses to. */
  lemma {:induction false} PrintParses(e: Expr, bare: bool)
    requires Drawn(e) && Unreserved(e)
    ensures ParseText(RuleOf(e, bare)) == Some(e)
  {
    LexPrinted(e, bare);
    var ts := RuleTokens(e, bare);
    assert ts + [] == ts;
    if bare && e.BoolOp? {
      GroupParses(e, []);
    } else {
      assert ts == RuleTokens(e, false);
      PartParses(e, []);
      AndLift(ts, e, []);
      OrLift(ts, e, []);
    }
  }

  // ------------------------------------------- the parser never names a keyword

  lemma {:induction false} OrUnreserved(ts: seq<Token>)
    ensures ParseOr(ts).Got? ==> Unreserved(ParseOr(ts).v)
    decreases |ts|, 6
  {
    AndUnreserved(ts);
    if ParseAnd(ts).Got? {
      MoreUnreserved(Or, ParseAnd(ts).rest);
    }
  }

  lemma {:induction false} AndUnreserved(ts: seq<Token>)
    ensures ParseAnd(ts).Got? ==> Unreserved(ParseAnd(ts).v)
    decreases |ts|, 5
  {
    NotUnreserved(ts);
    if ParseNot(ts).Got? {
      MoreUnreserved(And, ParseNot(ts).rest);
    }
  }

  lemma {:induction false} MoreUnreserved(op: BoolOperator, ts: seq<Token>)
    ensures ParseMore(op, ts).Got? ==> forall i | 0 <= i < |ParseMore(op, ts).v| :: Unreserved(ParseMore(op, ts).v[i])
    decreases |ts|, 7
  {
    if At(ts, JoinerToken(op)) {
      AndUnreserved(ts[1..]);
      NotUnreserved(ts[1..]);
      var next := if op == Or then ParseAnd(ts[1..]) else ParseNot(ts[1..]);
      if next.Got? {
        MoreUnreserved(op, next.rest);
      }
    }
  }

  lemma {:induction false} NotUnreserved(ts: seq<Token>)
    ensures ParseNot(ts).Got? ==> Unreserved(ParseNot(ts).v)
    decreases |ts|, 4
  {
    if At(ts, Word("not")) {
      NotUnreserved(ts[1..]);
    } else {
      OperandUnreserved(ts);
      if ParseOperand(ts).Got? {
        LinksUnreserved(ParseOperand(ts).rest);
      }
    }
  }

  lemma {:induction false} LinksUnreserved(ts: seq<Token>)
    ensures ParseLinks(ts).Got? ==> forall i | 0 <= i < |ParseLinks(ts).v| :: UnreservedLink(ParseLinks(ts).v[i])
    decreases |ts|, 3
  {
    var op := OperatorAt(ts);
    if op.Some? {
      OperandUnreserved(ts[op.value.1..]);
      if ParseOperand(ts[op.value.1..]).Got? {
        LinksUnreserved(ParseOperand(ts[op.value.1..]).rest);
      }
    }
  }

  lemma {:induction false} OperandUnreserved(ts: seq<Token>)
    ensures ParseOperand(ts).Got? ==> Unreserved(ParseOperand(ts).v)
    decreases |ts|, 2
  {
    if At(ts, Symbol("-")) {
      OperandUnreserved(ts[1..]);
    } else {
      AtomUnreserved(ts);
    }
  }

  lemma {:induction false} AtomUnreserved(ts: seq<Token>)
    ensures ParseAtom(ts).Got? ==> Unreserved(ParseAtom(ts).v)
    decreases |ts|, 1
  {
    if ts != [] && ts[0].Word? && At(ts[1..], OPEN) {
      ArgumentsUnreserved(ts[2..], false);
    } else if At(ts, OPEN) {
      OrUnreserved(ts[1..]);
    } else if At(ts, Symbol("[")) {
      ElementsUnreserved(ts[1..]);
    }
  }

  lemma {:induction false} ElementsUnreserved(ts: seq<Token>)
    ensures ParseElements(ts).Got? ==> forall i | 0 <= i < |ParseElements(ts).v| :: Unreserved(ParseElements(ts).v[i])
    decreases |ts|, 8
  {
    if !At(ts, BRACKET) {
      OrUnreserved(ts);
      var first := ParseOr(ts);
      if first.Got? && At(first.rest, COMMA) {
        ElementsUnreserved(first.rest[1..]);
      }
    }
  }

  lemma {:induction false} ArgumentsUnreserved(ts: seq<Token>, namedOnly: bool)
    ensures ParseArguments(ts, namedOnly).Got? ==>
              && (forall i | 0 <= i < |ParseArguments(ts, namedOnly).v.positional| ::
                    Unreserved(ParseArguments(ts, namedOnly).v.positional[i]))
              && forall i | 0 <= i < |ParseArguments(ts, namedOnly).v.named| ::
                   UnreservedKeyword(ParseArguments(ts, namedOnly).v.named[i])
    decreases |ts|, 8
  {
    if !At(ts, CLOSE) {
      var named := AtKeyword(ts);
      var from := if named then ts[2..] else ts;
      OrUnreserved(from);
      var value := ParseOr(from);
      if value.Got? && At(value.rest, COMMA) {
        ArgumentsUnreserved(value.rest[1..], named);
      }
    }
  }

  lemma {:induction false} ParsedIsUnreserved(text: string)
    ensures ParseText(text).Some? ==> Unreserved(ParseText(text).value)
  {
    if Lex(text).Some? {
      OrUnreserved(Lex(text).value);
    }
  }
}
