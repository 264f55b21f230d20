/** How operators bind when nothing is in parentheses: `not` looser than comparisons,
    which chain, `and` looser than `not`, and `or` loosest. */
module Precedence {
  import opened Values
  import opened Syntax
  import opened Validator
  import opened RuleText
  import opened Printing
  import opened ParsingBack

  // -------------------------------------------------------------------- levels

  ghost predicate Operand(e: Expr) {
    DrawnOperand(e) && Unreserved(e)
  }

  /** An operand, or a chain of comparisons between operands. */
  ghost predicate Comparing(e: Expr) {
    if e.Compare? then
      && Operand(e.left) && e.links != []
      && forall i | 0 <= i < |e.links| :: CmpAllowed(e.links[i].op) && Operand(e.links[i].operand)
    else Operand(e)
  }

  ghost predicate Denying(e: Expr)
    decreases e
  {
    if e.UnaryOp? && e.uop == Not then Denying(e.operand) else Comparing(e)
  }

  ghost predicate Conjoining(e: Expr) {
    if e.BoolOp? && e.bop == And then |e.values| > 1 && forall i | 0 <= i < |e.values| :: Denying(e.values[i])
    else Denying(e)
  }

  /** Alternatives of conjunctions of denials of comparisons. */
  ghost predicate Flat(e: Expr) {
    if e.BoolOp? && e.bop == Or then |e.values| > 1 && forall i | 0 <= i < |e.values| :: Conjoining(e.values[i])
    else Conjoining(e)
  }

  // -------------------------------------------------------------------- tokens

  function LinksTokens(links: seq<Link>): seq<Token> {
    if links == [] then []
    else OpTokens(links[0].op) + (OperandTokens(links[0].operand) + LinksTokens(links[1..]))
  }

  function ComparingTokens(e: Expr): seq<Token> {
    if e.Compare? then OperandTokens(e.left) + LinksTokens(e.links) else OperandTokens(e)
  }

  function DenyingTokens(e: Expr): seq<Token>
    decreases e
  {
    if e.UnaryOp? && e.uop == Not then [Word("not")] + DenyingTokens(e.operand) else ComparingTokens(e)
  }

  function ConjoiningTokens(e: Expr): seq<Token> {
    if e.BoolOp? && e.bop == And && e.values != [] then
      DenyingTokens(e.values[0]) + AndTokens(e.values[1..])
    else DenyingTokens(e)
  }

  function AndTokens(es: seq<Expr>): seq<Token> {
    if es == [] then [] else [Word("and")] + (DenyingTokens(es[0]) + AndTokens(es[1..]))
  }

  function OrTokens(es: seq<Expr>): seq<Token> {
    if es == [] then [] else [Word("or")] + (ConjoiningTokens(es[0]) + OrTokens(es[1..]))
  }

  /** The tree written out without a single parenthesis around an operator. */
  function FlatTokens(e: Expr): seq<Token> {
    if e.BoolOp? && e.bop == Or && e.values != [] then
      ConjoiningTokens(e.values[0]) + OrTokens(e.values[1..])
    else ConjoiningTokens(e)
  }

  // -------------------------------------------------------------------- reading

  lemma {:induction false} LinksApart(links: seq<Link>, rest: seq<Token>)
    requires FollowsPart(rest) && forall i | 0 <= i < |links| :: CmpAllowed(links[i].op)
    ensures !At(LinksTokens(links) + rest, OPEN)
  {
    if links == [] {
      assert LinksTokens(links) + rest == rest;
    } else {
      assert (LinksTokens(links) + rest)[0] == OpTokens(links[0].op)[0];
    }
  }

  lemma {:induction false} LinksSplit(links: seq<Link>, rest: seq<Token>)
    requires links != []
    ensures var after := OperandTokens(links[0].operand) + (LinksTokens(links[1..]) + rest);
            && LinksTokens(links) + rest == OpTokens(links[0].op) + after
            && (OpTokens(links[0].op) + after)[|OpTokens(links[0].op)|..] == after
  {
  }

  lemma {:induction false} LinkStep(ts: seq<Token>, n: nat, links: seq<Link>, mid: seq<Token>, rest: seq<Token>)
    requires links != [] && OperatorAt(ts) == Some((links[0].op, n)) && n <= |ts|
    requires ParseOperand(ts[n..]) == Got(links[0].operand, mid) && ParseLinks(mid) == Got(links[1..], rest)
    ensures ParseLinks(ts) == Got(links, rest)
  {
    assert links == [links[0]] + links[1..];
  }

  lemma {:induction false} LinksRead(links: seq<Link>, rest: seq<Token>)
    requires FollowsPart(rest)
    requires forall i | 0 <= i < |links| :: CmpAllowed(links[i].op) && Operand(links[i].operand)
    ensures ParseLinks(LinksTokens(links) + rest) == Got(links, rest)
  {
    if links == [] {
      assert LinksTokens(links) + rest == rest;
      LinksStop(rest);
    } else {
      var op, mid := OpTokens(links[0].op), LinksTokens(links[1..]) + rest;
      var after := OperandTokens(links[0].operand) + mid;
      LinksSplit(links, rest);
      OperatorRead(links[0].op, after);
      LinksApart(links[1..], rest);
      OperandParses(links[0].operand, mid);
      LinksRead(links[1..], rest);
      LinkStep(op + after, |op|, links, mid, rest);
    }
  }

  lemma {:induction false} OperandLeads(e: Expr, after: seq<Token>)
    requires Operand(e)
    ensures !At(OperandTokens(e) + after, Word("not"))
  {
    OperandBegins(e, []);
    assert OperandTokens(e) + [] == OperandTokens(e);
    assert (OperandTokens(e) + after)[0] == OperandTokens(e)[0];
  }

  lemma {:induction false} ComparisonRead(left: Expr, links: seq<Link>, rest: seq<Token>)
    requires Operand(left) && FollowsPart(rest)
    requires forall i | 0 <= i < |links| :: CmpAllowed(links[i].op) && Operand(links[i].operand)
    ensures var ts := OperandTokens(left) + (LinksTokens(links) + rest);
            && ParseComparison(ts) == Got(if links == [] then left else Compare(left, links), rest)
            && !At(ts, Word("not"))
  {
    var tail := LinksTokens(links) + rest;
    LinksApart(links, rest);
    OperandParses(left, tail);
    LinksRead(links, rest);
    OperandLeads(left, tail);
  }

  lemma {:induction false} ComparingRead(e: Expr, rest: seq<Token>)
    requires Comparing(e) && FollowsPart(rest)
    ensures ParseNot(ComparingTokens(e) + rest) == Got(e, rest)
  {
    var left, links := if e.Compare? then e.left else e, if e.Compare? then e.links else [];
    var ts := OperandTokens(left) + (LinksTokens(links) + rest);
    assert LinksTokens([]) + rest == rest;
    assert ts == ComparingTokens(e) + rest;
    ComparisonRead(left, links, rest);
    NotAtNot(ts);
  }

  lemma {:induction false} NotAtNot(ts: seq<Token>)
    ensures !At(ts, Word("not")) ==> ParseNot(ts) == ParseComparison(ts)
  {
  }

  lemma {:induction false} NotStep(inner: seq<Token>, x: Expr, rest: seq<Token>)
    requires ParseNot(inner) == Got(x, rest)
    ensures ParseNot([Word("not")] + inner) == Got(UnaryOp(Not, x), rest)
  {
    assert ([Word("not")] + inner)[1..] == inner;
  }

  lemma {:induction false} DenyingRead(e: Expr, rest: seq<Token>)
    requires Denying(e) && FollowsPart(rest)
    ensures ParseNot(DenyingTokens(e) + rest) == Got(e, rest)
    decreases e
  {
    if e.UnaryOp? && e.uop == Not {
      DenyingRead(e.operand, rest);
      NotStep(DenyingTokens(e.operand) + rest, e.operand, rest);
      assert DenyingTokens(e) + rest == [Word("not")] + (DenyingTokens(e.operand) + rest);
    } else {
      ComparingRead(e, rest);
    }
  }

  lemma {:induction false} MoreStep(op: BoolOperator, head: seq<Token>, es: seq<Expr>, mid: seq<Token>,
                                    rest: seq<Token>)
    requires es != [] && (if op == Or then ParseAnd(head) else ParseNot(head)) == Got(es[0], mid)
    requires ParseMore(op, mid) == Got(es[1..], rest)
    ensures ParseMore(op, [JoinerToken(op)] + head) == Got(es, rest)
  {
    assert ([JoinerToken(op)] + head)[1..] == head;
    assert es == [es[0]] + es[1..];
  }

  lemma {:induction false} NoMore(op: BoolOperator, rest: seq<Token>)
    requires !At(rest, JoinerToken(op))
    ensures ParseMore(op, rest) == Got([], rest)
  {
  }

  predicate EndsAnd(rest: seq<Token>) {
    FollowsPart(rest) && !At(rest, Word("and"))
  }

  lemma {:induction false} AndSplit(es: seq<Expr>, rest: seq<Token>)
    requires FollowsPart(rest)
    ensures es == [] ==> AndTokens(es) + rest == rest
    ensures es != [] ==>
              AndTokens(es) + rest
              == [JoinerToken(And)] + (DenyingTokens(es[0]) + (AndTokens(es[1..]) + rest))
    ensures FollowsPart(AndTokens(es) + rest)
  {
    if es == [] {
      assert AndTokens(es) + rest == rest;
    }
  }

  lemma {:induction false} AndRead(es: seq<Expr>, rest: seq<Token>)
    requires EndsAnd(rest) && forall i | 0 <= i < |es| :: Denying(es[i])
    ensures ParseMore(And, AndTokens(es) + rest) == Got(es, rest)
  {
    AndSplit(es, rest);
    if es == [] {
      NoMore(And, rest);
    } else {
      var mid := AndTokens(es[1..]) + rest;
      AndSplit(es[1..], rest);
      AndRead(es[1..], rest);
      DenyingRead(es[0], mid);
      MoreStep(And, DenyingTokens(es[0]) + mid, es, mid, rest);
    }
  }

  lemma {:induction false} AndStep(head: seq<Token>, e: Expr, mid: seq<Token>, rest: seq<Token>)
    requires e.BoolOp? && e.bop == And && |e.values| > 1
    requires ParseNot(head) == Got(e.values[0], mid) && ParseMore(And, mid) == Got(e.values[1..], rest)
    ensures ParseAnd(head) == Got(e, rest)
  {
    assert e.values == [e.values[0]] + e.values[1..];
  }

  lemma {:induction false} OrStep(head: seq<Token>, e: Expr, mid: seq<Token>, rest: seq<Token>)
    requires e.BoolOp? && e.bop == Or && |e.values| > 1
    requires ParseAnd(head) == Got(e.values[0], mid) && ParseMore(Or, mid) == Got(e.values[1..], rest)
    ensures ParseOr(head) == Got(e, rest)
  {
    assert e.values == [e.values[0]] + e.values[1..];
  }

  lemma {:induction false} ConjoiningRead(e: Expr, rest: seq<Token>)
    requires Conjoining(e) && EndsAnd(rest)
    ensures ParseAnd(ConjoiningTokens(e) + rest) == Got(e, rest)
  {
    if e.BoolOp? && e.bop == And {
      var mid := AndTokens(e.values[1..]) + rest;
      FlatSplit(e, rest);
      AndSplit(e.values[1..], rest);
      AndRead(e.values[1..], rest);
      DenyingRead(e.values[0], mid);
      AndStep(DenyingTokens(e.values[0]) + mid, e, mid, rest);
    } else {
      DenyingRead(e, rest);
      AndLift(ConjoiningTokens(e) + rest, e, rest);
    }
  }

  lemma {:induction false} OrSplit(es: seq<Expr>, rest: seq<Token>)
    requires FollowsRule(rest)
    ensures es == [] ==> OrTokens(es) + rest == rest
    ensures es != [] ==>
              OrTokens(es) + rest
              == [JoinerToken(Or)] + (ConjoiningTokens(es[0]) + (OrTokens(es[1..]) + rest))
    ensures EndsAnd(OrTokens(es) + rest)
  {
    if es == [] {
      assert OrTokens(es) + rest == rest;
    }
  }

  lemma {:induction false} OrRead(es: seq<Expr>, rest: seq<Token>)
    requires FollowsRule(rest) && forall i | 0 <= i < |es| :: Conjoining(es[i])
    ensures ParseMore(Or, OrTokens(es) + rest) == Got(es, rest)
  {
    OrSplit(es, rest);
    if es == [] {
      NoMore(Or, rest);
    } else {
      var mid := OrTokens(es[1..]) + rest;
      OrSplit(es[1..], rest);
      OrRead(es[1..], rest);
      ConjoiningRead(es[0], mid);
      MoreStep(Or, ConjoiningTokens(es[0]) + mid, es, mid, rest);
    }
  }

  lemma {:induction false} FlatSplit(e: Expr, rest: seq<Token>)
    requires e.BoolOp? && e.values != []
    ensures e.bop == And ==>
              ConjoiningTokens(e) + rest == DenyingTokens(e.values[0]) + (AndTokens(e.values[1..]) + rest)
    ensures e.bop == Or ==>
              FlatTokens(e) + rest == ConjoiningTokens(e.values[0]) + (OrTokens(e.values[1..]) + rest)
  {
  }

  /** Whatever is written without parentheses reads as alternatives of conjunctions of
      denials of chained comparisons, each level taking all it can. */
  lemma {:induction false} FlatReads(e: Expr, rest: seq<Token>)
    requires Flat(e) && FollowsRule(rest)
    ensures ParseOr(FlatTokens(e) + rest) == Got(e, rest)
  {
    if e.BoolOp? && e.bop == Or {
      var mid := OrTokens(e.values[1..]) + rest;
      FlatSplit(e, rest);
      OrSplit(e.values[1..], rest);
      OrRead(e.values[1..], rest);
      ConjoiningRead(e.values[0], mid);
      OrStep(ConjoiningTokens(e.values[0]) + mid, e, mid, rest);
    } else {
      ConjoiningRead(e, rest);
      OrLift(FlatTokens(e) + rest, e, rest);
    }
  }
}
