/** How large the numbers get: the 512-bit bound on every value a validated rule
    computes, whatever it calls. */
module Magnitude {
  import opened Values
  import opened Syntax
  import opened Arithmetic
  import opened Decimal
  import opened Interpretation
  import opened Velocity
  import opened Functions
  import opened Validator
  import opened Soundness

  ghost predicate ValueFits(v: Value) {
    match v
    case Int(n) => Fits(n, MAX_RESULT_BITS)
    case Tuple(items) => AllValuesFit(items)
    case List(items) => AllValuesFit(items)
    case _ => true
  }

  ghost predicate AllValuesFit(vs: seq<Value>) {
    forall i | 0 <= i < |vs| :: ValueFits(vs[i])
  }

  ghost predicate FactsFit(c: Context) {
    forall name | name in c.facts :: ValueFits(c.facts[name])
  }

  /** The calls among these nodes give values of at most 512 bits, if any. */
  ghost predicate CallsFit(reached: set<Expr>, c: Context) {
    forall s | s in reached && s.Call? && Evaluate(s, c).Val? :: ValueFits(Evaluate(s, c).v)
  }

  // ------------------------------------------------------- literals and operators

  function Pow10(k: nat): nat {
    if k == 0 then 1 else 10 * Pow10(k - 1)
  }

  lemma {:induction false} DigitsBound(n: nat)
    ensures n < Pow10(|Digits(n)|)
  {
    if n >= 10 {
      DigitsBound(n / 10);
      assert |Digits(n)| - 1 == |Digits(n / 10)|;
    } else {
      assert Pow10(1) == 10;
    }
  }

  lemma {:induction false} Pow10WithinPow2(k: nat)
    ensures Pow10(k) <= Pow2(4 * k)
  {
    if k > 0 {
      Pow10WithinPow2(k - 1);
      var j := 4 * (k - 1);
      assert Pow2(j + 1) == 2 * Pow2(j) && Pow2(j + 2) == 2 * Pow2(j + 1);
      assert Pow2(j + 3) == 2 * Pow2(j + 2) && Pow2(j + 4) == 2 * Pow2(j + 3);
    }
  }

  /** Forty digits, the most a literal may have, are well within 512 bits. */
  lemma {:induction false} LiteralFits(n: int)
    requires VisitConstant(Int(n)) == Pass
    ensures Fits(n, MAX_RESULT_BITS)
  {
    var m := Abs(n);
    DigitsBound(m);
    Pow10WithinPow2(|Digits(m)|);
    Pow2Monotone(4 * |Digits(m)|, MAX_RESULT_BITS);
    FitsIffBelow(n, MAX_RESULT_BITS);
  }

  /** From 512-bit operands no arithmetic node computes more than 513 bits, and
      only addition and subtraction can get past 512 at all. */
  lemma {:induction false} ArithmeticBits(op: BinOperator, l: int, r: int)
    requires Fits(l, MAX_RESULT_BITS) && Fits(r, MAX_RESULT_BITS)
    ensures RawArithmetic(op, l, r).Val? ==>
              && Fits(RawArithmetic(op, l, r).v, MAX_RESULT_BITS + 1)
              && (!Fits(RawArithmetic(op, l, r).v, MAX_RESULT_BITS) ==> op == Add || op == Sub)
  {
    match op
    case Add => SumBits(l, r, MAX_RESULT_BITS);
    case Sub => SumBits(l, r, MAX_RESULT_BITS);
    case Mult => ProductBits(l, r);
    case _ => if r != 0 { DivModBits(l, r, MAX_RESULT_BITS); }
  }

  // ----------------------------------------------------------- every value fits

  /** With 512-bit facts and 512-bit results of the calls it reaches, every value a
      validated rule computes has at most 512 bits, whatever the function table. */
  lemma {:induction false} ResultsFit(e: Expr, c: Context)
    requires Visit(e) == Pass && FactsFit(c) && CallsFit(Reached(e, c), c)
    ensures Evaluate(e, c).Val? ==> ValueFits(Evaluate(e, c).v)
    decreases e
  {
    match e
    case Const(v) => if v.Int? { LiteralFits(v.n); }
    case BoolOp(op, values) => BoolFits(op, values, c);
    case UnaryOp(_, x) =>
      assert Reached(x, c) <= Reached(e, c);
      ResultsFit(x, c);
      var v := Evaluate(x, c);
      if v.Val? && v.v.Int? { NegationBits(v.v.n, MAX_RESULT_BITS); }
    case Compare(left, links) =>
      if Evaluate(left, c).Val? { LinksFit(Evaluate(left, c).v, links, c); }
    case Call(_, _, _) => assert e in Reached(e, c);
    case ListLit(elts) =>
      assert ReachedAll(elts, c) <= Reached(e, c);
      AllFit(elts, c);
    case TupleLit(elts) =>
      assert ReachedAll(elts, c) <= Reached(e, c);
      AllFit(elts, c);
    case _ =>
  }

  lemma {:induction false} BoolFits(op: BoolOperator, es: seq<Expr>, c: Context)
    ensures EvaluateBool(op, es, c).Val? ==> ValueFits(EvaluateBool(op, es, c).v)
  {
    if es != [] {
      BoolFits(op, es[1..], c);
    }
  }

  lemma {:induction false} LinksFit(l: Value, links: seq<Link>, c: Context)
    ensures EvaluateLinks(l, links, c).Val? ==> ValueFits(EvaluateLinks(l, links, c).v)
    decreases links
  {
    if links != [] && Evaluate(links[0].operand, c).Val? {
      LinksFit(Evaluate(links[0].operand, c).v, links[1..], c);
    }
  }

  lemma {:induction false} AllFit(es: seq<Expr>, c: Context)
    requires VisitAll(es) == Pass && FactsFit(c) && CallsFit(ReachedAll(es, c), c)
    ensures EvaluateAll(es, c).Val? ==> AllValuesFit(EvaluateAll(es, c).v)
    decreases es
  {
    if es != [] {
      assert Reached(es[0], c) <= ReachedAll(es, c);
      ResultsFit(es[0], c);
      if Evaluate(es[0], c).Val? {
        assert ReachedAll(es[1..], c) <= ReachedAll(es, c);
        AllFit(es[1..], c);
      }
    }
  }

  // ---------------------------------------------- what is reached from what is reached

  lemma {:induction false} ReachedFrom(e: Expr, c: Context, s: Expr)
    requires s in Reached(e, c)
    ensures Reached(s, c) <= Reached(e, c) && Nodes(s) <= Nodes(e)
    decreases e
  {
    if s != e {
      match e
      case BoolOp(op, values) => ReachedFromBool(op, values, c, s);
      case UnaryOp(_, x) => ReachedFrom(x, c, s);
      case Compare(left, links) =>
        if s in Reached(left, c) {
          ReachedFrom(left, c, s);
        } else {
          ReachedFromLinks(Evaluate(left, c).v, links, c, s);
        }
      case BinOp(l, _, r) =>
        if s in Reached(l, c) {
          ReachedFrom(l, c, s);
        } else {
          ReachedFrom(r, c, s);
        }
      case Call(_, args, ks) =>
        if s in ReachedAll(args, c) {
          ReachedFromAll(args, c, s);
        } else {
          ReachedFromKeywords(ks, c, s);
        }
      case ListLit(elts) => ReachedFromAll(elts, c, s);
      case TupleLit(elts) => ReachedFromAll(elts, c, s);
    }
  }

  lemma {:induction false} ReachedFromBool(op: BoolOperator, es: seq<Expr>, c: Context, s: Expr)
    requires s in ReachedBool(op, es, c)
    ensures Reached(s, c) <= ReachedBool(op, es, c) && Nodes(s) <= NodesAll(es)
    decreases es
  {
    if s in Reached(es[0], c) {
      ReachedFrom(es[0], c, s);
    } else {
      ReachedFromBool(op, es[1..], c, s);
    }
  }

  lemma {:induction false} ReachedFromLinks(l: Value, links: seq<Link>, c: Context, s: Expr)
    requires s in ReachedLinks(l, links, c)
    ensures Reached(s, c) <= ReachedLinks(l, links, c) && Nodes(s) <= NodesLinks(links)
    decreases links
  {
    assert (links decreases to links[0]);
    if s in Reached(links[0].operand, c) {
      ReachedFrom(links[0].operand, c, s);
    } else {
      ReachedFromLinks(Evaluate(links[0].operand, c).v, links[1..], c, s);
    }
  }

  lemma {:induction false} ReachedFromAll(es: seq<Expr>, c: Context, s: Expr)
    requires s in ReachedAll(es, c)
    ensures Reached(s, c) <= ReachedAll(es, c) && Nodes(s) <= NodesAll(es)
    decreases es
  {
    if s in Reached(es[0], c) {
      ReachedFrom(es[0], c, s);
    } else {
      ReachedFromAll(es[1..], c, s);
    }
  }

  lemma {:induction false} ReachedFromKeywords(ks: seq<Keyword>, c: Context, s: Expr)
    requires s in ReachedKeywords(ks, c)
    ensures Reached(s, c) <= ReachedKeywords(ks, c) && Nodes(s) <= NodesKeywords(ks)
    decreases ks
  {
    assert (ks decreases to ks[0]);
    if ks[0].arg.Some? && s in Reached(ks[0].value, c) {
      ReachedFrom(ks[0].value, c, s);
    } else {
      ReachedFromKeywords(ks[1..], c, s);
    }
  }

  /** Every arithmetic node a validated rule reaches works on 512-bit operands, so
      no integer it ever computes exceeds 513 bits, and what it returns fits. */
  lemma {:induction false} ReachedArithmeticBounded(body: Expr, c: Context, s: Expr, l: int, r: int)
    requires Validate(body) == Pass && FactsFit(c) && CallsFit(Reached(body, c), c)
    requires s in Reached(body, c) && s.BinOp?
    requires Evaluate(s.lhs, c) == Val(Int(l)) && Evaluate(s.rhs, c) == Val(Int(r))
    ensures RawArithmetic(s.op, l, r).Val? ==>
              && Fits(RawArithmetic(s.op, l, r).v, MAX_RESULT_BITS + 1)
              && (!Fits(RawArithmetic(s.op, l, r).v, MAX_RESULT_BITS) ==> s.op == Add || s.op == Sub)
    ensures Evaluate(s, c).Val? ==> ValueFits(Evaluate(s, c).v)
  {
    ReachedPasses(body, c, s);
    ReachedFrom(body, c, s);
    assert Reached(s.lhs, c) <= Reached(s, c) && Reached(s.rhs, c) <= Reached(s, c);
    ResultsFit(s.lhs, c);
    ResultsFit(s.rhs, c);
    assert ValueFits(Int(l)) && ValueFits(Int(r));
    ArithmeticBits(s.op, l, r);
  }

  // ------------------------------------------------- the engine's own functions

  /** The range of products whose percentage has at most 512 bits. */
  predicate PercentInRange(args: seq<Value>) {
    |args| == 2 && args[0].Int? && args[1].Int? ==>
      100 * (1 - Pow2(MAX_RESULT_BITS)) <= args[0].n * args[1].n < 100 * Pow2(MAX_RESULT_BITS)
  }

  /** All that is left to assume of the calls reached: that percentages are in range. */
  ghost predicate PercentagesInRange(reached: set<Expr>, c: Context) {
    forall s | s in reached && s.Call? && s.func == Name("percent_of") && EvaluateAll(s.args, c).Val? ::
      PercentInRange(EvaluateAll(s.args, c).v)
  }

  const AMOUNT_BITS: nat := 499

  /** At most 5,000 entries, and no amount so large that they could add up past the
      bound: 13 bits cover the number of entries. */
  ghost predicate WindowModest(p: Provider) {
    p.Live? ==>
      && |p.window.entries| <= MAX_MEMBERS_FETCHED
      && forall e | e in p.window.entries :: Fits(e.amount, AMOUNT_BITS)
  }

  ghost predicate ClockModest(clock: Clock) {
    && Fits(clock.hour, MAX_RESULT_BITS)
    && forall text :: clock.daysSince(text).Some? ==> Fits(clock.daysSince(text).value, MAX_RESULT_BITS)
  }

  /** A fetched window never has more entries. */
  lemma {:induction false} ViewsAreCapped(k: Keys, now: int)
    ensures |View(k, now).entries| <= MAX_MEMBERS_FETCHED
  {
  }

  ghost predicate AmountsFit(xs: seq<int>, bits: nat) {
    forall i | 0 <= i < |xs| :: Fits(xs[i], bits)
  }

  lemma {:induction false} MatchingIsShorter(entries: seq<Entry>, cutoff: int, f: Filter, bits: nat)
    requires Matching(entries, cutoff, f).Val? && forall e | e in entries :: Fits(e.amount, bits)
    ensures |Matching(entries, cutoff, f).v| <= |entries| && AmountsFit(Matching(entries, cutoff, f).v, bits)
  {
    if entries != [] {
      MatchingIsShorter(entries[1..], cutoff, f, bits);
    }
  }

  lemma {:induction false} SmallFits(n: nat)
    requires n <= MAX_MEMBERS_FETCHED
    ensures Fits(n, MAX_RESULT_BITS) && n < Pow2(13)
  {
    Pow2Monotone(13, MAX_RESULT_BITS);
    assert Pow2(13) == 8192;
    FitsIffBelow(n, MAX_RESULT_BITS);
  }

  /** Amounts below a bound add up to less than their number times it. */
  lemma {:induction false} SumBounded(xs: seq<int>, bits: nat)
    requires AmountsFit(xs, bits)
    ensures -(|xs| * Pow2(bits)) <= Sum(xs) <= |xs| * Pow2(bits)
    ensures xs != [] ==> -(|xs| * Pow2(bits)) < Sum(xs) < |xs| * Pow2(bits)
  {
    if xs != [] {
      assert AmountsFit(xs[1..], bits);
      SumBounded(xs[1..], bits);
      FitsIffBelow(xs[0], bits);
      assert |xs| * Pow2(bits) == |xs[1..]| * Pow2(bits) + Pow2(bits);
    }
  }

  lemma {:induction false} SumFits(xs: seq<int>)
    requires |xs| <= MAX_MEMBERS_FETCHED && AmountsFit(xs, AMOUNT_BITS)
    ensures Fits(Sum(xs), MAX_RESULT_BITS)
  {
    SumBounded(xs, AMOUNT_BITS);
    SmallFits(|xs|);
    Pow2Sum(13, AMOUNT_BITS);
    Pow2Positive(MAX_RESULT_BITS);
    BelowLarger(Sum(xs), |xs|, Pow2(13), Pow2(AMOUNT_BITS), Pow2(MAX_RESULT_BITS));
    FitsIffBelow(Sum(xs), MAX_RESULT_BITS);
  }

  lemma {:induction false} BelowLarger(sum: int, n: int, m: int, x: int, limit: int)
    requires 0 <= n < m && x >= 0 && m * x == limit && limit > 0 && -(n * x) <= sum <= n * x
    ensures -limit < sum < limit
  {
    assert limit - n * x == (m - n) * x;
    assert x > 0 && (m - n) * x > 0;
  }

  lemma {:induction false} VelocityFits(p: Provider, counting: bool, args: seq<Value>, kw: Kwargs)
    requires WindowModest(p) && VelocityCall(p, counting, args, kw).Val?
    ensures ValueFits(VelocityCall(p, counting, args, kw).v)
  {
    var bound := Bind(VELOCITY_PARAMS, {"window"}, args, kw).v;
    var cutoff, f := p.window.now - WindowSeconds(bound["window"]).v, FilterOf(bound);
    MatchingIsShorter(p.window.entries, cutoff, f, AMOUNT_BITS);
    var amounts := Matching(p.window.entries, cutoff, f).v;
    SmallFits(|amounts|);
    SumFits(amounts);
  }

  lemma {:induction false} DatesFit(clock: Clock, args: seq<Value>, kw: Kwargs)
    requires ClockModest(clock)
    ensures DaysSince(clock, args, kw).Val? ==> ValueFits(DaysSince(clock, args, kw).v)
    ensures HourOfDay(clock, args, kw).Val? ==> ValueFits(HourOfDay(clock, args, kw).v)
  {
  }

  lemma {:induction false} PercentFitsIff(args: seq<Value>, kw: Kwargs)
    requires |args| == 2 && BindKeywords(kw) == map[] && PercentOf(args, kw).Val?
    ensures ValueFits(PercentOf(args, kw).v) <==> PercentInRange(args)
  {
    BindTwo("amount", "percent", args, kw);
    PercentOfFitsIff(args[0].n, args[1].n);
  }

  lemma {:induction false} ChoicesFit(args: seq<Value>, kw: Kwargs)
    requires BindKeywords(kw) == map[] && AllValuesFit(args)
    ensures |args| == 1 && AbsValue(args, kw).Val? ==> ValueFits(AbsValue(args, kw).v)
    ensures |args| == 2 && Pick(true, args, kw).Val? ==> ValueFits(Pick(true, args, kw).v)
    ensures |args| == 2 && Pick(false, args, kw).Val? ==> ValueFits(Pick(false, args, kw).v)
  {
    if |args| == 1 {
      BindOne("value", args, kw);
      if args[0].Int? {
        assert ValueFits(args[0]);
        NegationBits(args[0].n, MAX_RESULT_BITS);
      }
    } else if |args| == 2 {
      BindTwo("a", "b", args, kw);
      assert ValueFits(args[0]) && ValueFits(args[1]);
    }
  }

  /** A call of an accepted shape on 512-bit arguments gives a 512-bit result, if
      any, from a modest window and clock; a percentage does if it is in range. */
  lemma {:induction false} BuiltCallFits(p: Provider, clock: Clock, name: string, args: seq<Value>, kw: Kwargs)
    requires AcceptedShape(name, args, kw) && name in Build(p, clock)
    requires WindowModest(p) && ClockModest(clock) && AllValuesFit(args)
    requires name == "percent_of" ==> PercentInRange(args)
    ensures Build(p, clock)[name](args, kw).Val? ==> ValueFits(Build(p, clock)[name](args, kw).v)
  {
    if Build(p, clock)[name](args, kw).Val? {
      if name == "velocity_count" || name == "velocity_sum" {
        VelocityFits(p, name == "velocity_count", args, kw);
      } else if name == "days_since" || name == "hour_of_day" {
        DatesFit(clock, args, kw);
      } else {
        assert BindKeywords(kw) == map[];
        if name == "percent_of" {
          PercentFitsIff(args, kw);
        } else if name in {"abs", "min", "max"} {
          ChoicesFit(args, kw);
        }
      }
    }
  }

  /** The engine's own function table, on data of modest size. */
  ghost predicate Engine(c: Context, p: Provider, clock: Clock) {
    c.functions == Build(p, clock) && FactsFit(c) && WindowModest(p) && ClockModest(clock)
  }

  lemma {:induction false} EngineCallFits(s: Expr, c: Context, p: Provider, clock: Clock)
    requires s.Call? && Visit(s) == Pass && Engine(c, p, clock) && PercentagesInRange(Reached(s, c), c)
    ensures Evaluate(s, c).Val? ==> ValueFits(Evaluate(s, c).v)
    decreases Nodes(s)
  {
    if Evaluate(s, c).Val? {
      var below := ReachedAll(s.args, c);
      assert below <= Reached(s, c) && s in Reached(s, c);
      forall t | t in below && t.Call? && Evaluate(t, c).Val? ensures ValueFits(Evaluate(t, c).v) {
        ReachedAllPasses(s.args, c, t);
        ReachedFromAll(s.args, c, t);
        EngineCallFits(t, c, p, clock);
      }
      AllFit(s.args, c);
      ValidCallShape(s, c);
      BuiltCallFits(p, clock, s.func.id, EvaluateAll(s.args, c).v, EvaluateKeywords(s.keywords, c).v);
    }
  }

  /** With the engine's own function table, if the percentages a validated rule reaches
      are in range, then every call it reaches gives at most 512 bits. */
  lemma {:induction false} EngineCallsFit(body: Expr, c: Context, p: Provider, clock: Clock)
    requires Validate(body) == Pass && Engine(c, p, clock) && PercentagesInRange(Reached(body, c), c)
    ensures CallsFit(Reached(body, c), c)
  {
    forall s | s in Reached(body, c) && s.Call? && Evaluate(s, c).Val? ensures ValueFits(Evaluate(s, c).v) {
      ReachedPasses(body, c, s);
      ReachedFrom(body, c, s);
      EngineCallFits(s, c, p, clock);
    }
  }

  /** So the bounds hold at every arithmetic node that the engine reaches. */
  lemma {:induction false} EngineArithmeticBounded(body: Expr, c: Context, p: Provider, clock: Clock, s: Expr, l: int,
                                                   r: int)
    requires Validate(body) == Pass && Engine(c, p, clock) && PercentagesInRange(Reached(body, c), c)
    requires s in Reached(body, c) && s.BinOp?
    requires Evaluate(s.lhs, c) == Val(Int(l)) && Evaluate(s.rhs, c) == Val(Int(r))
    ensures RawArithmetic(s.op, l, r).Val? ==>
              && Fits(RawArithmetic(s.op, l, r).v, MAX_RESULT_BITS + 1)
              && (!Fits(RawArithmetic(s.op, l, r).v, MAX_RESULT_BITS) ==> s.op == Add || s.op == Sub)
    ensures Evaluate(s, c).Val? ==> ValueFits(Evaluate(s, c).v)
  {
    EngineCallsFit(body, c, p, clock);
    ReachedArithmeticBounded(body, c, s, l, r);
  }
}
