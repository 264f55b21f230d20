/** What validation buys at run time: a validated rule either yields a value or
    fails with a rule evaluation error, except in the few places named here. */
module Soundness {
  import opened Values
  import opened Syntax
  import opened Decimal
  import opened Interpretation
  import opened Velocity
  import opened Functions
  import opened Validator

  // ------------------------------------------------ what an evaluation reaches

  /** The subterms evaluation visits, stopping where it stops. */
  ghost function Reached(e: Expr, c: Context): set<Expr>
    decreases e, 1
  {
    {e} + ReachedBelow(e, c)
  }

  ghost function ReachedBelow(e: Expr, c: Context): set<Expr>
    decreases e, 0
  {
    match e
    case BoolOp(op, values) => ReachedBool(op, values, c)
    case UnaryOp(_, x) => Reached(x, c)
    case Compare(left, links) =>
      Reached(left, c) + (if Evaluate(left, c).Val? then ReachedLinks(Evaluate(left, c).v, links, c) else {})
    case BinOp(l, _, r) => Reached(l, c) + (if Evaluate(l, c).Val? then Reached(r, c) else {})
    case Call(f, args, ks) =>
      if !f.Name? || f.id !in c.functions then {}
      else ReachedAll(args, c) + (if EvaluateAll(args, c).Val? then ReachedKeywords(ks, c) else {})
    case ListLit(elts) => ReachedAll(elts, c)
    case TupleLit(elts) => ReachedAll(elts, c)
    case _ => {}
  }

  ghost function ReachedBool(op: BoolOperator, es: seq<Expr>, c: Context): set<Expr>
    decreases es, 1
  {
    if es == [] then {}
    else
      var v := Evaluate(es[0], c);
      Reached(es[0], c)
      + (if v.IsFailure() || Truthy(v.v) == (op == Or) then {} else ReachedBool(op, es[1..], c))
  }

  ghost function ReachedLinks(l: Value, links: seq<Link>, c: Context): set<Expr>
    decreases links, 1
  {
    if links == [] then {}
    else
      assert (links decreases to links[0]);
      var r := Evaluate(links[0].operand, c);
      Reached(links[0].operand, c)
      + (if r.Val? && ApplyCompare(links[0].op, l, r.v) == Val(true) then ReachedLinks(r.v, links[1..], c) else {})
  }

  ghost function ReachedAll(es: seq<Expr>, c: Context): set<Expr>
    decreases es, 1
  {
    if es == [] then {}
    else Reached(es[0], c) + (if Evaluate(es[0], c).Val? then ReachedAll(es[1..], c) else {})
  }

  ghost function ReachedKeywords(ks: seq<Keyword>, c: Context): set<Expr>
    decreases ks, 1
  {
    if ks == [] then {}
    else if ks[0].arg.None? then ReachedKeywords(ks[1..], c)
    else
      assert (ks decreases to ks[0]);
      Reached(ks[0].value, c) + (if Evaluate(ks[0].value, c).Val? then ReachedKeywords(ks[1..], c) else {})
  }

  // ----------------------------------------------------- where host errors come from

  /** Walking a chained comparison looks for something other than text in text. */
  predicate LinksFault(l: Value, links: seq<Link>, c: Context)
    decreases links
  {
    links != [] && Evaluate(links[0].operand, c).Val? &&
    var r := Evaluate(links[0].operand, c).v;
    || ((links[0].op == In || links[0].op == NotIn) && MembershipFaults(l, r))
    || (ApplyCompare(links[0].op, l, r) == Val(true) && LinksFault(r, links[1..], c))
  }

  /** A node that raises a host error itself, all its parts having evaluated. */
  predicate LocalFault(s: Expr, c: Context) {
    match s
    case Compare(left, links) => Evaluate(left, c).Val? && LinksFault(Evaluate(left, c).v, links, c)
    case Call(f, args, ks) =>
      || !f.Name?
      || (f.id in c.functions && EvaluateAll(args, c).Val? && EvaluateKeywords(ks, c).Val?
          && c.functions[f.id](EvaluateAll(args, c).v, EvaluateKeywords(ks, c).v).HostErr?)
    case _ => false
  }

  ghost predicate SomeFault(reached: set<Expr>, c: Context) {
    exists s | s in reached :: LocalFault(s, c)
  }

  lemma {:induction false} FaultUnion(a: set<Expr>, b: set<Expr>, c: Context)
    ensures SomeFault(a + b, c) <==> SomeFault(a, c) || SomeFault(b, c)
  {
    if SomeFault(a, c) {
      var s :| s in a && LocalFault(s, c);
      assert s in a + b;
    }
    if SomeFault(b, c) {
      var s :| s in b && LocalFault(s, c);
      assert s in a + b;
    }
  }

  /** An evaluation ends in a host error if and only if it reaches a node that
      raises one. */
  lemma {:induction false} HostErrorIff(e: Expr, c: Context)
    ensures Evaluate(e, c).HostErr? <==> SomeFault(Reached(e, c), c)
    decreases e, 2
  {
    BelowIff(e, c);
    FaultUnion({e}, ReachedBelow(e, c), c);
    assert SomeFault({e}, c) <==> LocalFault(e, c) by {
      if LocalFault(e, c) { assert e in {e}; }
    }
  }

  lemma {:induction false} BelowIff(e: Expr, c: Context)
    ensures Evaluate(e, c).HostErr? <==> LocalFault(e, c) || SomeFault(ReachedBelow(e, c), c)
    decreases e, 1
  {
    match e
    case BoolOp(op, values) => BoolIff(op, values, c);
    case UnaryOp(_, x) => HostErrorIff(x, c);
    case Compare(left, links) => CompareIff(e, c);
    case BinOp(l, _, r) =>
      HostErrorIff(l, c);
      HostErrorIff(r, c);
      FaultUnion(Reached(l, c), if Evaluate(l, c).Val? then Reached(r, c) else {}, c);
    case Call(_, _, _) => CallIff(e, c);
    case ListLit(elts) => AllIff(elts, c);
    case TupleLit(elts) => AllIff(elts, c);
    case _ =>
  }

  lemma {:induction false} CompareIff(e: Expr, c: Context)
    requires e.Compare?
    ensures Evaluate(e, c).HostErr? <==> LocalFault(e, c) || SomeFault(ReachedBelow(e, c), c)
    decreases e, 0
  {
    HostErrorIff(e.left, c);
    var l := Evaluate(e.left, c);
    if l.Val? {
      LinksIff(l.v, e.links, c);
      FaultUnion(Reached(e.left, c), ReachedLinks(l.v, e.links, c), c);
    } else {
      FaultUnion(Reached(e.left, c), {}, c);
    }
  }

  lemma {:induction false} CallIff(e: Expr, c: Context)
    requires e.Call?
    ensures Evaluate(e, c).HostErr? <==> LocalFault(e, c) || SomeFault(ReachedBelow(e, c), c)
    decreases e, 0
  {
    if e.func.Name? && e.func.id in c.functions {
      AllIff(e.args, c);
      KeywordsIff(e.keywords, c);
      FaultUnion(ReachedAll(e.args, c), if EvaluateAll(e.args, c).Val? then ReachedKeywords(e.keywords, c) else {}, c);
    }
  }

  lemma {:induction false} BoolIff(op: BoolOperator, es: seq<Expr>, c: Context)
    ensures EvaluateBool(op, es, c).HostErr? <==> SomeFault(ReachedBool(op, es, c), c)
    decreases es, 0
  {
    if es != [] {
      HostErrorIff(es[0], c);
      BoolIff(op, es[1..], c);
      var v := Evaluate(es[0], c);
      FaultUnion(Reached(es[0], c),
                 if v.IsFailure() || Truthy(v.v) == (op == Or) then {} else ReachedBool(op, es[1..], c), c);
    }
  }

  lemma {:induction false} LinksIff(l: Value, links: seq<Link>, c: Context)
    ensures EvaluateLinks(l, links, c).HostErr? <==> LinksFault(l, links, c) || SomeFault(ReachedLinks(l, links, c), c)
    decreases links, 0
  {
    if links != [] {
      assert (links decreases to links[0]);
      HostErrorIff(links[0].operand, c);
      var r := Evaluate(links[0].operand, c);
      var continues := r.Val? && ApplyCompare(links[0].op, l, r.v) == Val(true);
      if continues {
        LinksIff(r.v, links[1..], c);
      }
      FaultUnion(Reached(links[0].operand, c), if continues then ReachedLinks(r.v, links[1..], c) else {}, c);
    }
  }

  lemma {:induction false} AllIff(es: seq<Expr>, c: Context)
    ensures EvaluateAll(es, c).HostErr? <==> SomeFault(ReachedAll(es, c), c)
    decreases es, 0
  {
    if es != [] {
      HostErrorIff(es[0], c);
      AllIff(es[1..], c);
      FaultUnion(Reached(es[0], c), if Evaluate(es[0], c).Val? then ReachedAll(es[1..], c) else {}, c);
    }
  }

  lemma {:induction false} KeywordsIff(ks: seq<Keyword>, c: Context)
    ensures EvaluateKeywords(ks, c).HostErr? <==> SomeFault(ReachedKeywords(ks, c), c)
    decreases ks, 0
  {
    if ks != [] {
      assert (ks decreases to ks[0]);
      KeywordsIff(ks[1..], c);
      if ks[0].arg.Some? {
        HostErrorIff(ks[0].value, c);
        FaultUnion(Reached(ks[0].value, c),
                   if Evaluate(ks[0].value, c).Val? then ReachedKeywords(ks[1..], c) else {}, c);
      }
    }
  }

  // -------------------------------------- validation carries over to what is reached

  lemma {:induction false} ReachedPasses(e: Expr, c: Context, s: Expr)
    requires Visit(e) == Pass && s in Reached(e, c)
    ensures Visit(s) == Pass
    decreases e
  {
    if s != e {
      match e
      case BoolOp(op, values) => ReachedBoolPasses(op, values, c, s);
      case UnaryOp(_, x) => ReachedPasses(x, c, s);
      case Compare(left, links) =>
        if s in Reached(left, c) {
          ReachedPasses(left, c, s);
        } else {
          ReachedLinksPasses(Evaluate(left, c).v, links, c, s);
        }
      case BinOp(l, _, r) =>
        if s in Reached(l, c) {
          ReachedPasses(l, c, s);
        } else {
          ReachedPasses(r, c, s);
        }
      case Call(_, args, ks) =>
        if s in ReachedAll(args, c) {
          ReachedAllPasses(args, c, s);
        } else {
          ReachedKeywordsPasses(ks, c, s);
        }
      case ListLit(elts) => ReachedAllPasses(elts, c, s);
      case TupleLit(elts) => ReachedAllPasses(elts, c, s);
    }
  }

  lemma {:induction false} ReachedBoolPasses(op: BoolOperator, es: seq<Expr>, c: Context, s: Expr)
    requires VisitAll(es) == Pass && s in ReachedBool(op, es, c)
    ensures Visit(s) == Pass
    decreases es
  {
    if s in Reached(es[0], c) {
      ReachedPasses(es[0], c, s);
    } else {
      ReachedBoolPasses(op, es[1..], c, s);
    }
  }

  lemma {:induction false} ReachedLinksPasses(l: Value, links: seq<Link>, c: Context, s: Expr)
    requires VisitLinks(links) == Pass && s in ReachedLinks(l, links, c)
    ensures Visit(s) == Pass
    decreases links
  {
    assert (links decreases to links[0]);
    if s in Reached(links[0].operand, c) {
      ReachedPasses(links[0].operand, c, s);
    } else {
      ReachedLinksPasses(Evaluate(links[0].operand, c).v, links[1..], c, s);
    }
  }

  lemma {:induction false} ReachedAllPasses(es: seq<Expr>, c: Context, s: Expr)
    requires VisitAll(es) == Pass && s in ReachedAll(es, c)
    ensures Visit(s) == Pass
    decreases es
  {
    if s in Reached(es[0], c) {
      ReachedPasses(es[0], c, s);
    } else {
      ReachedAllPasses(es[1..], c, s);
    }
  }

  lemma {:induction false} ReachedKeywordsPasses(ks: seq<Keyword>, c: Context, s: Expr)
    requires VisitKeywords(ks) == Pass && s in ReachedKeywords(ks, c)
    ensures Visit(s) == Pass
    decreases ks
  {
    assert (ks decreases to ks[0]);
    if ks[0].arg.Some? && s in Reached(ks[0].value, c) {
      ReachedPasses(ks[0].value, c, s);
    } else {
      ReachedKeywordsPasses(ks[1..], c, s);
    }
  }

  /** The interpreter's last branches each stand for one operator: below a
      validated root, `>=` ends the comparisons, `%` the arithmetic and `-` the
      unary operators, and no unexamined node is ever reached. */
  lemma {:induction false} FallThroughsReached(body: Expr, c: Context, s: Expr)
    requires Validate(body) == Pass && s in Reached(body, c)
    ensures !s.Other?
    ensures s.UnaryOp? && s.uop != Not ==> s.uop == USub
    ensures s.BinOp? && s.op !in {Add, Sub, Mult, FloorDiv} ==> s.op == Mod
    ensures s.Compare? ==> forall i | 0 <= i < |s.links| && s.links[i].op !in {Eq, NotEq, In, NotIn, Lt, LtE, Gt} ::
              s.links[i].op == GtE
  {
    ReachedPasses(body, c, s);
    if s.Compare? {
      forall i | 0 <= i < |s.links| ensures CmpAllowed(s.links[i].op) {}
    }
  }

  // ------------------------------------------------ host errors of validated rules

  lemma {:induction false} EvaluateAllLength(es: seq<Expr>, c: Context)
    ensures EvaluateAll(es, c).Val? ==> |EvaluateAll(es, c).v| == |es|
  {
    if es != [] {
      EvaluateAllLength(es[1..], c);
    }
  }

  lemma {:induction false} BindKeywordsAppend(k: (string, Value), rest: Kwargs)
    ensures BindKeywords([k] + rest).Keys == {k.0} + BindKeywords(rest).Keys
  {
    var kw := [k] + rest;
    if rest == [] {
      assert kw[..|kw| - 1] == [];
    } else {
      BindKeywordsAppend(k, rest[..|rest| - 1]);
      assert kw[..|kw| - 1] == [k] + rest[..|rest| - 1];
    }
  }

  lemma {:induction false} KeywordNamesAllowed(ks: seq<Keyword>, spec: Spec, seen: set<string>, c: Context)
    requires KeywordsVerdict(ks, spec, seen) == Pass && EvaluateKeywords(ks, c).Val?
    ensures BindKeywords(EvaluateKeywords(ks, c).v).Keys <= spec.keywords
  {
    if ks != [] {
      KeywordNamesAllowed(ks[1..], spec, seen + {ks[0].arg.value}, c);
      BindKeywordsAppend((ks[0].arg.value, Evaluate(ks[0].value, c).v), EvaluateKeywords(ks[1..], c).v);
    }
  }

  lemma {:induction false} ValidCallShape(s: Expr, c: Context)
    requires s.Call? && Visit(s) == Pass
    requires EvaluateAll(s.args, c).Val? && EvaluateKeywords(s.keywords, c).Val?
    ensures s.func.Name? && AcceptedShape(s.func.id, EvaluateAll(s.args, c).v, EvaluateKeywords(s.keywords, c).v)
  {
    EvaluateAllLength(s.args, c);
    KeywordNamesAllowed(s.keywords, SPECS[s.func.id], {}, c);
  }

  /** The two guards the validator leaves to run time: something other than text is
      sought in text, or a velocity call lacks its window or compares an amount
      with something that is not a number. */
  ghost predicate Unguarded(s: Expr, c: Context, p: Provider)
    requires Visit(s) == Pass
  {
    match s
    case Compare(left, links) => Evaluate(left, c).Val? && LinksFault(Evaluate(left, c).v, links, c)
    case Call(f, args, ks) =>
      && EvaluateAll(args, c).Val? && EvaluateKeywords(ks, c).Val?
      && AcceptedShape(f.id, EvaluateAll(args, c).v, EvaluateKeywords(ks, c).v)
      && CallFaults(p, f.id, EvaluateAll(args, c).v, EvaluateKeywords(ks, c).v)
    case _ => false
  }

  lemma {:induction false} FaultIsUnguarded(s: Expr, c: Context, p: Provider, clock: Clock)
    requires Visit(s) == Pass && c.functions == Build(p, clock)
    ensures LocalFault(s, c) <==> Unguarded(s, c, p)
  {
    if s.Call? && EvaluateAll(s.args, c).Val? && EvaluateKeywords(s.keywords, c).Val? {
      ValidCallShape(s, c);
      CallFaultsIff(p, clock, s.func.id, EvaluateAll(s.args, c).v, EvaluateKeywords(s.keywords, c).v);
    }
  }

  /** A validated rule gives a value or a rule evaluation error and nothing else,
      unless evaluation reaches one of those guards and it fails. */
  lemma {:induction false} ValidatedRuleSound(body: Expr, c: Context, p: Provider, clock: Clock)
    requires Validate(body) == Pass && c.functions == Build(p, clock)
    ensures Evaluate(body, c).HostErr?
       <==> exists s | s in Reached(body, c) :: Visit(s) == Pass && Unguarded(s, c, p)
  {
    HostErrorIff(body, c);
    forall s | s in Reached(body, c) ensures Visit(s) == Pass && (LocalFault(s, c) <==> Unguarded(s, c, p)) {
      ReachedPasses(body, c, s);
      FaultIsUnguarded(s, c, p, clock);
    }
  }

  // ------------------------------------------------ one rule for each such guard

  lemma {:induction false} ComparisonFaults(left: Expr, link: Link, c: Context)
    requires Visit(left) == Pass && Visit(link.operand) == Pass && CmpAllowed(link.op)
    ensures Validate(Compare(left, [link])) == Pass
    ensures Evaluate(left, c).HostErr? ==> Evaluate(Compare(left, [link]), c).HostErr?
    ensures Evaluate(left, c).Val? && Evaluate(link.operand, c).Val?
            && ApplyCompare(link.op, Evaluate(left, c).v, Evaluate(link.operand, c).v).HostErr?
            ==> Evaluate(Compare(left, [link]), c).HostErr?
  {
    var links := [link];
    assert links[1..] == [] && VisitLinks([]) == Pass;
    assert VisitLinks(links) == Pass;
  }

  lemma {:induction false} NamesPass()
    ensures AsciiIdentifier("country") && AsciiIdentifier("velocity_count")
  {
    var s, t := "country", "velocity_count";
    assert s[0] == 'c' && t[0] == 'v';
  }

  /** `5 in country`. */
  const NUMBER_IN_TEXT := Compare(Const(Int(5)), [Link(In, Name("country"))])

  lemma {:induction false} NumberInText(c: Context)
    requires "country" in c.facts && c.facts["country"].Text?
    ensures Validate(NUMBER_IN_TEXT) == Pass && Evaluate(NUMBER_IN_TEXT, c) == HostErr
    ensures WithinNodeCeiling(NUMBER_IN_TEXT)
  {
    NamesPass();
    assert Digits(5) == "5";
    ComparisonFaults(Const(Int(5)), Link(In, Name("country")), c);
    assert NUMBER_IN_TEXT.links[1..] == [] && NodesLinks(NUMBER_IN_TEXT.links[1..]) == 0;
  }

  lemma {:induction false} FaultyCount(ks: seq<Keyword>, kw: Kwargs, c: Context, p: Provider, clock: Clock)
    requires c.functions == Build(p, clock) && EvaluateKeywords(ks, c) == Val(kw)
    requires KeywordsVerdict(ks, SPECS["velocity_count"], {}) == Pass && VisitKeywords(ks) == Pass
    requires VelocityCall(p, true, [], kw).HostErr?
    ensures var rule := Compare(Call(Name("velocity_count"), [], ks), [Link(Gt, Const(Int(3)))]);
            Validate(rule) == Pass && Evaluate(rule, c) == HostErr
  {
    var call := Call(Name("velocity_count"), [], ks);
    NamesPass();
    assert Digits(3) == "3";
    assert Visit(call) == Pass;
    assert Evaluate(call, c) == VelocityCall(p, true, [], kw);
    ComparisonFaults(call, Link(Gt, Const(Int(3))), c);
  }

  /** `velocity_count() > 3`. */
  lemma {:induction false} CountWithoutWindow(c: Context, p: Provider, clock: Clock)
    requires c.functions == Build(p, clock)
    ensures var rule := Compare(Call(Name("velocity_count"), [], []), [Link(Gt, Const(Int(3)))]);
            Validate(rule) == Pass && Evaluate(rule, c) == HostErr
  {
    VelocityFaultsIff(p, true, []);
    FaultyCount([], [], c, p, clock);
  }

  lemma {:induction false} TwoTexts(k: string, v: string, l: string, w: string, c: Context)
    ensures var ks := [Keyword(Some(k), Const(Text(v))), Keyword(Some(l), Const(Text(w)))];
            && EvaluateKeywords(ks, c) == Val([(k, Text(v)), (l, Text(w))])
            && VisitKeywords(ks) == Pass
            && BindKeywords([(k, Text(v)), (l, Text(w))]) == map[k := Text(v)][l := Text(w)]
  {
    var ks := [Keyword(Some(k), Const(Text(v))), Keyword(Some(l), Const(Text(w)))];
    assert ks[1..] == [ks[1]] && ks[1..][1..] == [];
    assert [(l, Text(w))] + [] == [(l, Text(w))] && EvaluateKeywords(ks[1..][1..], c) == Val([]);
    assert EvaluateKeywords(ks[1..], c) == Val([(l, Text(w))]);
    assert [(k, Text(v))] + [(l, Text(w))] == [(k, Text(v)), (l, Text(w))];
    assert VisitKeywords(ks[1..]) == Pass;
    var kw: Kwargs := [(k, Text(v)), (l, Text(w))];
    assert kw[..1] == [kw[0]] && kw[..1][..0] == [];
    assert BindKeywords(kw[..1]) == map[k := Text(v)];
  }

  lemma {:induction false} TwoKeywordsPass(ks: seq<Keyword>, spec: Spec)
    requires |ks| == 2 && ks[0].arg.Some? && ks[1].arg.Some? && ks[0].arg.value != ks[1].arg.value
    requires ks[0].arg.value in spec.keywords && ks[1].arg.value in spec.keywords
    ensures KeywordsVerdict(ks, spec, {}) == Pass
  {
    assert ks[1..] == [ks[1]] && ks[1..][1..] == [];
    assert {} + {ks[0].arg.value} == {ks[0].arg.value};
    assert KeywordsVerdict(ks[1..], spec, {ks[0].arg.value}) == Pass;
  }

  lemma {:induction false} TextBoundFaults(p: Provider, e: Entry)
    requires p.Live? && e in p.window.entries && e.score >= p.window.now - 3_600
    ensures VelocityCall(p, true, [], [("window", Text("1h")), ("min_amount_minor", Text("x"))]).HostErr?
  {
    var kw: Kwargs := [("window", Text("1h")), ("min_amount_minor", Text("x"))];
    TwoTexts("window", "1h", "min_amount_minor", "x", Context(map[], map[]));
    VelocityFaultsIff(p, true, kw);
    var named := BindKeywords(kw);
    assert WindowSeconds(named["window"]) == Val(3_600);
    assert WithinBounds(e.amount, FilterOf(named)).HostErr?;
  }

  /** `velocity_count(window='1h', min_amount_minor='x') > 3`, once there is anything
      in the window. */
  lemma {:induction false} CountWithTextBound(c: Context, p: Provider, clock: Clock, e: Entry)
    requires c.functions == Build(p, clock) && p.Live? && e in p.window.entries && e.score >= p.window.now - 3_600
    ensures var ks := [Keyword(Some("window"), Const(Text("1h"))), Keyword(Some("min_amount_minor"), Const(Text("x")))];
            var rule := Compare(Call(Name("velocity_count"), [], ks), [Link(Gt, Const(Int(3)))]);
            Validate(rule) == Pass && Evaluate(rule, c) == HostErr
  {
    var ks := [Keyword(Some("window"), Const(Text("1h"))), Keyword(Some("min_amount_minor"), Const(Text("x")))];
    TwoTexts("window", "1h", "min_amount_minor", "x", c);
    TwoKeywordsPass(ks, SPECS["velocity_count"]);
    TextBoundFaults(p, e);
    FaultyCount(ks, [("window", Text("1h")), ("min_amount_minor", Text("x"))], c, p, clock);
  }
}
