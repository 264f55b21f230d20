/** The allowlist a rule must pass when it is published. */
module Validator {
  import opened Values
  import opened Syntax
  import opened Functions
  import opened Decimal

  datatype Problem =
    | ConstructNotAllowed(kind: string)
    | AttributeAccess
    | Subscripting
    | ReservedName(id: string)
    | BadLiteral
    | NumberTooLarge
    | NonNumericOperand
    | DivisionByZero
    | IndirectCall
    | UnknownFunction(name: string)
    | WrongArity(name: string)
    | UnknownKeyword(name: string)
    | DuplicateKeyword(name: string)
    | NotACondition

  datatype Verdict = Pass | Refused(problem: Problem)
  {
    predicate IsFailure() {
      Refused?
    }

    function PropagateFailure(): Verdict
      requires IsFailure()
    {
      this
    }
  }

  const MAX_NUMBER_DIGITS: nat := 40

  predicate IsLetter(c: char) {
    'a' <= c <= 'z' || 'A' <= c <= 'Z'
  }

  predicate IsWordChar(c: char) {
    IsLetter(c) || IsDigit(c) || c == '_'
  }

  /** `[A-Za-z][A-Za-z0-9_]*`. */
  predicate AsciiIdentifier(s: string) {
    s != "" && IsLetter(s[0]) && forall i | 0 <= i < |s| :: IsWordChar(s[i])
  }

  // ------------------------------------------------------------ the allowlist

  predicate UnaryAllowed(op: UnaryOperator) {
    op == Not || op == USub
  }

  predicate CmpAllowed(op: CmpOperator) {
    op != Is && op != IsNot
  }

  predicate BinAllowed(op: BinOperator) {
    !op.OtherBin?
  }

  function Allow(ok: bool, kind: string): Verdict {
    if ok then Pass else Refused(ConstructNotAllowed(kind))
  }

  // -------------------------------------------------------------- the visitor

  function VisitConstant(v: Value): Verdict {
    match v
    case Int(n) => if |Digits(if n < 0 then -n else n)| > MAX_NUMBER_DIGITS then Refused(NumberTooLarge) else Pass
    case Text(_) => Pass
    case Bool(_) => Pass
    case _ => Refused(BadLiteral)
  }

  predicate PlainOperand(e: Expr) {
    (e.Const? ==> e.value.Int?) && !e.ListLit? && !e.TupleLit?
  }

  predicate ConstantZero(e: Expr) {
    e.Const? && Numeric(e.value) == Some(0)
  }

  function VisitBinOp(l: Expr, op: BinOperator, r: Expr): Verdict {
    if !PlainOperand(l) || !PlainOperand(r) then Refused(NonNumericOperand)
    else if (op == FloorDiv || op == Mod) && ConstantZero(r) then Refused(DivisionByZero)
    else Pass
  }

  /** The keyword loop of `visit_Call`, with the names already seen. */
  function KeywordsVerdict(ks: seq<Keyword>, spec: Spec, seen: set<string>): Verdict {
    if ks == [] then Pass
    else
      var arg := ks[0].arg;
      if arg.None? then Refused(ConstructNotAllowed("Starred"))
      else if arg.value !in spec.keywords then Refused(UnknownKeyword(arg.value))
      else if arg.value in seen then Refused(DuplicateKeyword(arg.value))
      else KeywordsVerdict(ks[1..], spec, seen + {arg.value})
  }

  method CheckKeywords(ks: seq<Keyword>, spec: Spec) returns (v: Verdict)
    ensures v == KeywordsVerdict(ks, spec, {})
  {
    var seen: set<string> := {};
    for i := 0 to |ks|
      invariant KeywordsVerdict(ks, spec, {}) == KeywordsVerdict(ks[i..], spec, seen)
    {
      var arg := ks[i].arg;
      if arg.None? {
        return Refused(ConstructNotAllowed("Starred"));
      }
      if arg.value !in spec.keywords {
        return Refused(UnknownKeyword(arg.value));
      }
      if arg.value in seen {
        return Refused(DuplicateKeyword(arg.value));
      }
      assert ks[i..][1..] == ks[i + 1..];
      seen := seen + {arg.value};
    }
    v := Pass;
  }

  function VisitCall(f: Expr, args: seq<Expr>, ks: seq<Keyword>): Verdict {
    if f.Other? && f.kind == "Attribute" then Refused(AttributeAccess)
    else if !f.Name? then Refused(IndirectCall)
    else if f.id !in SPECS then Refused(UnknownFunction(f.id))
    else if |args| != SPECS[f.id].positional then Refused(WrongArity(f.id))
    else KeywordsVerdict(ks, SPECS[f.id], {})
  }

  function Visit(e: Expr): Verdict
    decreases e
  {
    match e
    case Const(v) => VisitConstant(v)
    case Name(id) => if AsciiIdentifier(id) then Pass else Refused(ReservedName(id))
    case BoolOp(_, values) => VisitAll(values)
    case UnaryOp(op, x) =>
      :- Allow(UnaryAllowed(op), "UnaryOp");
      Visit(x)
    case Compare(left, links) =>
      :- Visit(left);
      :- Allow(forall i | 0 <= i < |links| :: CmpAllowed(links[i].op), "Is");
      VisitLinks(links)
    case BinOp(l, op, r) =>
      :- VisitBinOp(l, op, r);
      :- Visit(l);
      :- Allow(BinAllowed(op), "BinOp");
      Visit(r)
    case Call(f, args, ks) =>
      :- VisitCall(f, args, ks);
      :- Visit(f);
      :- VisitAll(args);
      VisitKeywords(ks)
    case ListLit(elts) => VisitAll(elts)
    case TupleLit(elts) => VisitAll(elts)
    case Other(kind, _) =>
      if kind == "Attribute" then Refused(AttributeAccess)
      else if kind == "Subscript" then Refused(Subscripting)
      else Refused(ConstructNotAllowed(kind))
  }

  function VisitAll(es: seq<Expr>): Verdict
    decreases es
  {
    if es == [] then Pass
    else
      :- Visit(es[0]);
      VisitAll(es[1..])
  }

  function VisitLinks(ls: seq<Link>): Verdict
    decreases ls
  {
    if ls == [] then Pass
    else
      assert (ls decreases to ls[0]);
      :- Visit(ls[0].operand);
      VisitLinks(ls[1..])
  }

  function VisitKeywords(ks: seq<Keyword>): Verdict
    decreases ks
  {
    if ks == [] then Pass
    else
      assert (ks decreases to ks[0]);
      :- Visit(ks[0].value);
      VisitKeywords(ks[1..])
  }

  function Validate(body: Expr): Verdict {
    var verdict := Visit(body);
    if verdict == Pass && body.Const? then Refused(NotACondition) else verdict
  }
}
