/** Which rules may be published: the validator's verdict, node by node. */
module Allowlist {
  import opened Values
  import opened Syntax
  import opened Arithmetic
  import opened Functions
  import opened Decimal
  import opened Validator
  import opened Magnitude

  // --------------------------------------------------------------- every node

  /** `x` is `e` itself or stands somewhere inside it. */
  ghost predicate Inside(x: Expr, e: Expr)
    decreases e
  {
    || x == e
    || match e
       case BoolOp(_, values) => exists i | 0 <= i < |values| :: Inside(x, values[i])
       case UnaryOp(_, operand) => Inside(x, operand)
       case Compare(left, links) => Inside(x, left) || exists i | 0 <= i < |links| :: Inside(x, links[i].operand)
       case BinOp(l, _, r) => Inside(x, l) || Inside(x, r)
       case Call(f, args, ks) =>
         || Inside(x, f)
         || (exists i | 0 <= i < |args| :: Inside(x, args[i]))
         || exists i | 0 <= i < |ks| :: Inside(x, ks[i].value)
       case ListLit(elts) => exists i | 0 <= i < |elts| :: Inside(x, elts[i])
       case TupleLit(elts) => exists i | 0 <= i < |elts| :: Inside(x, elts[i])
       case Other(_, children) => exists i | 0 <= i < |children| :: Inside(x, children[i])
       case _ => false
  }

  // ------------------------------------------------------------ what one may be

  /** A letter, then letters, digits and underscores, all of them ASCII. */
  predicate PlainName(id: string) {
    && id != "" && !('0' <= id[0] <= '9') && id[0] != '_'
    && forall i | 0 <= i < |id| ::
         'a' <= id[i] <= 'z' || 'A' <= id[i] <= 'Z' || '0' <= id[i] <= '9' || id[i] == '_'
  }

  /** Text, a truth value, or a whole number of at most forty digits. */
  predicate PlainLiteral(v: Value) {
    v.Text? || v.Bool? || (v.Int? && Abs(v.n) < Pow10(40))
  }

  /** Not text, a truth value or a list: nothing that arithmetic would repeat or format. */
  predicate MayCompute(e: Expr) {
    !e.ListLit? && !e.TupleLit? && !(e.Const? && !e.value.Int?)
  }

  predicate Arity(name: string, n: nat) {
    || (name in {"velocity_count", "velocity_sum", "hour_of_day"} && n == 0)
    || (name in {"days_since", "abs"} && n == 1)
    || (name in {"in_list", "min", "max", "percent_of"} && n == 2)
  }

  /** Only the velocity functions take keywords, the window and its filters, by name. */
  predicate KeywordAllowed(name: string, k: Keyword) {
    && (name == "velocity_count" || name == "velocity_sum")
    && (k.arg == Some("window") || k.arg == Some("min_amount_minor") || k.arg == Some("max_amount_minor")
        || k.arg == Some("transaction_type"))
  }

  /** No keyword is given twice. */
  ghost predicate KeywordsAllowed(name: string, ks: seq<Keyword>) {
    && (forall i | 0 <= i < |ks| :: KeywordAllowed(name, ks[i]))
    && forall i, j | 0 <= i < j < |ks| :: ks[i].arg != ks[j].arg
  }

  /** What a single node may be, whatever is below it. */
  ghost predicate Allowed(e: Expr) {
    match e
    case Const(v) => PlainLiteral(v)
    case Name(id) => PlainName(id)
    case BoolOp(_, _) => true
    case UnaryOp(op, _) => op == Not || op == USub
    case Compare(_, links) => forall i | 0 <= i < |links| :: links[i].op != Is && links[i].op != IsNot
    case BinOp(l, op, r) =>
      && op in {Add, Sub, Mult, FloorDiv, Mod} && MayCompute(l) && MayCompute(r)
      && (op in {FloorDiv, Mod} ==> r != Const(Int(0)))
    case Call(f, args, ks) => f.Name? && Arity(f.id, |args|) && KeywordsAllowed(f.id, ks)
    case ListLit(_) => true
    case TupleLit(_) => true
    case Other(_, _) => false
  }

  // --------------------------------------------------------------- node by node

  lemma {:induction false} Pow10Grows(j: nat, k: nat)
    requires j <= k
    ensures 1 <= Pow10(j) <= Pow10(k)
    decreases k
  {
    if j < k {
      Pow10Grows(j, k - 1);
    } else if k > 0 {
      Pow10Grows(k - 1, k - 1);
    }
  }

  lemma {:induction false} DigitsReach(n: nat)
    ensures |Digits(n)| > 1 ==> Pow10(|Digits(n)| - 1) <= n
  {
    if n >= 10 {
      DigitsReach(n / 10);
      var k := |Digits(n / 10)|;
      assert |Digits(n)| == k + 1;
      assert Pow10(0) == 1 && Pow10(k) == 10 * Pow10(k - 1);
    }
  }

  lemma {:induction false} FortyDigits(n: nat)
    ensures |Digits(n)| <= 40 <==> n < Pow10(40)
  {
    DigitsBound(n);
    DigitsReach(n);
    if |Digits(n)| <= 40 {
      Pow10Grows(|Digits(n)|, 40);
    } else {
      Pow10Grows(40, |Digits(n)| - 1);
    }
  }

  lemma {:induction false} LiteralIff(v: Value)
    ensures VisitConstant(v) == Pass <==> PlainLiteral(v)
  {
    if v.Int? {
      FortyDigits(if v.n < 0 then -v.n else v.n);
    }
  }

  lemma {:induction false} NameIff(id: string)
    ensures AsciiIdentifier(id) <==> PlainName(id)
  {
    if PlainName(id) {
      assert IsWordChar(id[0]);
    }
  }

  lemma {:induction false} OperandsIff(l: Expr, op: BinOperator, r: Expr)
    ensures VisitBinOp(l, op, r) == Pass && BinAllowed(op) <==> Allowed(BinOp(l, op, r))
  {
  }

  lemma {:induction false} KeywordsIff(ks: seq<Keyword>, spec: Spec, seen: set<string>)
    ensures KeywordsVerdict(ks, spec, seen) == Pass
       <==> && (forall i | 0 <= i < |ks| ::
                  ks[i].arg.Some? && ks[i].arg.value in spec.keywords && ks[i].arg.value !in seen)
            && forall i, j | 0 <= i < j < |ks| :: ks[i].arg != ks[j].arg
  {
    if ks != [] {
      var arg := ks[0].arg;
      if arg.Some? {
        KeywordsIff(ks[1..], spec, seen + {arg.value});
        assert forall i | 0 < i < |ks| :: ks[i] == ks[1..][i - 1];
        assert forall i | 0 <= i < |ks[1..]| :: ks[1..][i] == ks[i + 1];
      }
    }
  }

  lemma {:induction false} SpecIs(name: string, n: nat)
    ensures name in SPECS && SPECS[name].positional == n <==> Arity(name, n)
    ensures name in SPECS ==>
              SPECS[name].keywords
              == if name in {"velocity_count", "velocity_sum"} then VELOCITY_KEYWORDS else {}
  {
  }

  lemma {:induction false} SpecKeyword(name: string, k: Keyword)
    requires name in SPECS
    ensures k.arg.Some? && k.arg.value in SPECS[name].keywords <==> KeywordAllowed(name, k)
  {
    SpecIs(name, 0);
  }

  lemma {:induction false} CallIff(f: Expr, args: seq<Expr>, ks: seq<Keyword>)
    ensures VisitCall(f, args, ks) == Pass <==> Allowed(Call(f, args, ks))
  {
    if f.Name? {
      SpecIs(f.id, |args|);
      if f.id in SPECS {
        KeywordsIff(ks, SPECS[f.id], {});
        forall i | 0 <= i < |ks|
          ensures ks[i].arg.Some? && ks[i].arg.value in SPECS[f.id].keywords <==> KeywordAllowed(f.id, ks[i]) {
          SpecKeyword(f.id, ks[i]);
        }
      }
    }
  }

  // ------------------------------------------------------------------- all of it

  lemma {:induction false} AllPass(es: seq<Expr>)
    ensures VisitAll(es) == Pass <==> forall i | 0 <= i < |es| :: Visit(es[i]) == Pass
  {
    if es != [] {
      AllPass(es[1..]);
      assert forall i | 0 < i < |es| :: es[i] == es[1..][i - 1];
      assert forall i | 0 <= i < |es[1..]| :: es[1..][i] == es[i + 1];
    }
  }

  lemma {:induction false} LinksPass(ls: seq<Link>)
    ensures VisitLinks(ls) == Pass <==> forall i | 0 <= i < |ls| :: Visit(ls[i].operand) == Pass
  {
    if ls != [] {
      LinksPass(ls[1..]);
      assert forall i | 0 < i < |ls| :: ls[i] == ls[1..][i - 1];
      assert forall i | 0 <= i < |ls[1..]| :: ls[1..][i] == ls[i + 1];
    }
  }

  lemma {:induction false} KeywordsPass(ks: seq<Keyword>)
    ensures VisitKeywords(ks) == Pass <==> forall i | 0 <= i < |ks| :: Visit(ks[i].value) == Pass
  {
    if ks != [] {
      KeywordsPass(ks[1..]);
      assert forall i | 0 < i < |ks| :: ks[i] == ks[1..][i - 1];
      assert forall i | 0 <= i < |ks[1..]| :: ks[1..][i] == ks[i + 1];
    }
  }

  ghost predicate AllAllowed(e: Expr) {
    forall x | Inside(x, e) :: Allowed(x)
  }

  lemma {:induction false} ManyAllowed(e: Expr, es: seq<Expr>)
    requires (e.BoolOp? && e.values == es) || ((e.ListLit? || e.TupleLit?) && e.elts == es)
    ensures AllAllowed(e) <==> forall i | 0 <= i < |es| :: AllAllowed(es[i])
  {
    if AllAllowed(e) {
      forall i, x | 0 <= i < |es| && Inside(x, es[i]) ensures Allowed(x) {
        assert Inside(x, e);
      }
    }
  }

  lemma {:induction false} CompareAllowed(left: Expr, links: seq<Link>)
    ensures AllAllowed(Compare(left, links))
       <==> && Allowed(Compare(left, links)) && AllAllowed(left)
            && forall i | 0 <= i < |links| :: AllAllowed(links[i].operand)
  {
    var e := Compare(left, links);
    if AllAllowed(e) {
      forall x | Inside(x, left) ensures Allowed(x) {
        assert Inside(x, e);
      }
      forall i, x | 0 <= i < |links| && Inside(x, links[i].operand) ensures Allowed(x) {
        assert Inside(x, e);
      }
      assert Inside(e, e);
    }
  }

  lemma {:induction false} OperatorsAllowed(op: UnaryOperator, x: Expr, l: Expr, bin: BinOperator, r: Expr)
    ensures AllAllowed(UnaryOp(op, x)) <==> Allowed(UnaryOp(op, x)) && AllAllowed(x)
    ensures AllAllowed(BinOp(l, bin, r)) <==> Allowed(BinOp(l, bin, r)) && AllAllowed(l) && AllAllowed(r)
  {
    var unary, binary := UnaryOp(op, x), BinOp(l, bin, r);
    assert Inside(unary, unary) && Inside(binary, binary);
    assert forall y | Inside(y, x) :: Inside(y, unary);
    assert forall y | Inside(y, l) || Inside(y, r) :: Inside(y, binary);
  }

  lemma {:induction false} CallAllowed(f: Expr, args: seq<Expr>, ks: seq<Keyword>)
    ensures AllAllowed(Call(f, args, ks))
       <==> && Allowed(Call(f, args, ks)) && AllAllowed(f)
            && (forall i | 0 <= i < |args| :: AllAllowed(args[i]))
            && forall i | 0 <= i < |ks| :: AllAllowed(ks[i].value)
  {
    var e := Call(f, args, ks);
    if AllAllowed(e) {
      forall x | Inside(x, f) ensures Allowed(x) {
        assert Inside(x, e);
      }
      forall i, x | 0 <= i < |args| && Inside(x, args[i]) ensures Allowed(x) {
        assert Inside(x, e);
      }
      forall i, x | 0 <= i < |ks| && Inside(x, ks[i].value) ensures Allowed(x) {
        assert Inside(x, e);
      }
      assert Inside(e, e);
    }
  }

  lemma {:induction false} LeafAllowed(e: Expr)
    requires e.Const? || e.Name? || e.Other?
    ensures AllAllowed(e) <==> Allowed(e)
  {
    assert Inside(e, e);
  }

  lemma {:induction false} EachIff(es: seq<Expr>)
    ensures VisitAll(es) == Pass <==> forall i | 0 <= i < |es| :: AllAllowed(es[i])
    decreases es, 1
  {
    forall i | 0 <= i < |es| ensures Visit(es[i]) == Pass <==> AllAllowed(es[i]) {
      VisitIff(es[i]);
    }
    AllPass(es);
  }

  /** The visitor passes a tree exactly when every node of it is one that is allowed. */
  lemma {:induction false} VisitIff(e: Expr)
    ensures Visit(e) == Pass <==> AllAllowed(e)
    decreases e, 0
  {
    match e
    case Const(v) =>
      LiteralIff(v);
      LeafAllowed(e);
    case Name(id) =>
      NameIff(id);
      LeafAllowed(e);
    case Other(_, _) => LeafAllowed(e);
    case BoolOp(_, es) =>
      EachIff(es);
      ManyAllowed(e, es);
    case ListLit(es) =>
      EachIff(es);
      ManyAllowed(e, es);
    case TupleLit(es) =>
      EachIff(es);
      ManyAllowed(e, es);
    case UnaryOp(op, x) =>
      VisitIff(x);
      OperatorsAllowed(op, x, x, Add, x);
    case BinOp(l, op, r) =>
      VisitIff(l);
      VisitIff(r);
      OperandsIff(l, op, r);
      OperatorsAllowed(Not, l, l, op, r);
    case Compare(left, links) =>
      VisitIff(left);
      forall i | 0 <= i < |links| ensures Visit(links[i].operand) == Pass <==> AllAllowed(links[i].operand) {
        VisitIff(links[i].operand);
      }
      LinksPass(links);
      CompareAllowed(left, links);
    case Call(f, args, ks) =>
      VisitIff(f);
      EachIff(args);
      forall i | 0 <= i < |ks| ensures Visit(ks[i].value) == Pass <==> AllAllowed(ks[i].value) {
        VisitIff(ks[i].value);
      }
      KeywordsPass(ks);
      CallIff(f, args, ks);
      CallAllowed(f, args, ks);
  }

  /** A rule may be published exactly when it is not a bare constant and every node of
      it is allowed. */
  lemma {:induction false} PublishableIff(body: Expr)
    ensures Validate(body) == Pass <==> !body.Const? && AllAllowed(body)
  {
    VisitIff(body);
  }

  /** What a refused leaf is told; a bare constant is refused as a whole rule only. */
  lemma {:induction false} LeafRefusalsAre(v: Value, id: string, kind: string, children: seq<Expr>)
    ensures !PlainLiteral(v) ==> Visit(Const(v)) == Validator.Refused(if v.Int? then NumberTooLarge else BadLiteral)
    ensures PlainLiteral(v) ==> Validate(Const(v)) == Validator.Refused(NotACondition)
    ensures !PlainName(id) ==> Visit(Name(id)) == Validator.Refused(ReservedName(id))
    ensures Visit(Other(kind, children))
         == Validator.Refused(if kind == "Attribute" then AttributeAccess
                              else if kind == "Subscript" then Subscripting else ConstructNotAllowed(kind))
  {
    LiteralIff(v);
    NameIff(id);
  }

  /** And what refused arithmetic is told. */
  lemma {:induction false} ArithmeticRefusalsAre(l: Expr, op: BinOperator, r: Expr)
    ensures !MayCompute(l) || !MayCompute(r) ==> Visit(BinOp(l, op, r)) == Validator.Refused(NonNumericOperand)
    ensures MayCompute(l) && op in {FloorDiv, Mod} && r == Const(Int(0)) ==>
              Visit(BinOp(l, op, r)) == Validator.Refused(DivisionByZero)
  {
    OperandRefusals(l, op, r);
    VisitOfArithmetic(l, op, r);
  }

  lemma {:induction false} OperandRefusals(l: Expr, op: BinOperator, r: Expr)
    ensures !MayCompute(l) || !MayCompute(r) ==> VisitBinOp(l, op, r) == Validator.Refused(NonNumericOperand)
    ensures MayCompute(l) && op in {FloorDiv, Mod} && r == Const(Int(0)) ==>
              VisitBinOp(l, op, r) == Validator.Refused(DivisionByZero)
  {
  }

  lemma {:induction false} VisitOfArithmetic(l: Expr, op: BinOperator, r: Expr)
    ensures VisitBinOp(l, op, r).Refused? ==> Visit(BinOp(l, op, r)) == VisitBinOp(l, op, r)
  {
  }

  /** What a refused call is told, the first complaint in this order. */
  lemma {:induction false} CallRefusalsAre(f: Expr, args: seq<Expr>, ks: seq<Keyword>)
    ensures var verdict := Visit(Call(f, args, ks));
            && (f.Other? && f.kind == "Attribute" ==> verdict == Validator.Refused(AttributeAccess))
            && (!f.Name? && !(f.Other? && f.kind == "Attribute") ==> verdict == Validator.Refused(IndirectCall))
            && (f.Name? && (forall n: nat :: !Arity(f.id, n)) ==> verdict == Validator.Refused(UnknownFunction(f.id)))
            && (f.Name? && (exists n: nat :: Arity(f.id, n)) && !Arity(f.id, |args|) ==>
                  verdict == Validator.Refused(WrongArity(f.id)))
  {
    if f.Name? {
      SpecIs(f.id, |args|);
      if f.id in SPECS {
        SpecIs(f.id, SPECS[f.id].positional);
      }
    }
  }
}
