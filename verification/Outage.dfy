/** Losing part of what a rule can see turns results into rule evaluation errors
    and changes nothing else. */
module Outage {
  import opened Values
  import opened Syntax
  import opened Interpretation
  import opened Evaluation

  /** `down` sees no fact that `up` does not, offers the same functions, and a call
      it answers differently is one it answers with a rule evaluation error. */
  ghost predicate Degrades(up: Context, down: Context) {
    && (forall n | n in down.facts :: n in up.facts && down.facts[n] == up.facts[n])
    && down.functions.Keys == up.functions.Keys
    && forall n, xs, ks | n in down.functions ::
         down.functions[n](xs, ks) == up.functions[n](xs, ks) || down.functions[n](xs, ks).RuleErr?
  }

  predicate SameOrFailed<T(==)>(up: Counted<T>, down: Counted<T>) {
    down == up || down.out.RuleErr?
  }

  lemma {:induction false} RunDegrades(e: Expr, up: Context, down: Context, max: nat, n: nat)
    requires Degrades(up, down)
    ensures SameOrFailed(Run(e, up, max, n), Run(e, down, max, n))
    decreases e, 1
  {
    if n + 1 <= max {
      match e
      case BoolOp(op, values) => BoolDegrades(op, values, up, down, max, n + 1);
      case UnaryOp(_, x) => RunDegrades(x, up, down, max, n + 1);
      case Compare(left, links) =>
        RunDegrades(left, up, down, max, n + 1);
        var l := Run(left, up, max, n + 1);
        if l.out.Val? {
          LinksDegrade(l.out.v, links, up, down, max, l.steps);
        }
      case BinOp(left, _, right) =>
        RunDegrades(left, up, down, max, n + 1);
        RunDegrades(right, up, down, max, Run(left, up, max, n + 1).steps);
      case Call(_, _, _) => CallDegrades(e, up, down, max, n);
      case ListLit(elts) => AllDegrade(elts, up, down, max, n + 1);
      case TupleLit(elts) => AllDegrade(elts, up, down, max, n + 1);
      case _ =>
    }
  }

  lemma {:induction false} CallDegrades(e: Expr, up: Context, down: Context, max: nat, n: nat)
    requires Degrades(up, down) && e.Call? && n + 1 <= max
    ensures SameOrFailed(Run(e, up, max, n), Run(e, down, max, n))
    decreases e, 0
  {
    AllDegrade(e.args, up, down, max, n + 1);
    var xs := RunAll(e.args, up, max, n + 1);
    if xs.out.Val? {
      KeywordsDegrade(e.keywords, up, down, max, xs.steps);
    }
  }

  lemma {:induction false} BoolDegrades(op: BoolOperator, es: seq<Expr>, up: Context, down: Context, max: nat, n: nat)
    requires Degrades(up, down)
    ensures SameOrFailed(RunBool(op, es, up, max, n), RunBool(op, es, down, max, n))
    decreases es
  {
    if es != [] {
      RunDegrades(es[0], up, down, max, n);
      BoolDegrades(op, es[1..], up, down, max, Run(es[0], up, max, n).steps);
    }
  }

  lemma {:induction false} LinksDegrade(l: Value, links: seq<Link>, up: Context, down: Context, max: nat, n: nat)
    requires Degrades(up, down)
    ensures SameOrFailed(RunLinks(l, links, up, max, n), RunLinks(l, links, down, max, n))
    decreases links
  {
    if links != [] {
      assert (links decreases to links[0]);
      RunDegrades(links[0].operand, up, down, max, n);
      var r := Run(links[0].operand, up, max, n);
      if r.out.Val? {
        LinksDegrade(r.out.v, links[1..], up, down, max, r.steps);
      }
    }
  }

  lemma {:induction false} AllDegrade(es: seq<Expr>, up: Context, down: Context, max: nat, n: nat)
    requires Degrades(up, down)
    ensures SameOrFailed(RunAll(es, up, max, n), RunAll(es, down, max, n))
    decreases es
  {
    if es != [] {
      RunDegrades(es[0], up, down, max, n);
      AllDegrade(es[1..], up, down, max, Run(es[0], up, max, n).steps);
    }
  }

  lemma {:induction false} KeywordsDegrade(ks: seq<Keyword>, up: Context, down: Context, max: nat, n: nat)
    requires Degrades(up, down)
    ensures SameOrFailed(RunKeywords(ks, up, max, n), RunKeywords(ks, down, max, n))
    decreases ks
  {
    if ks != [] {
      assert (ks decreases to ks[0]);
      RunDegrades(ks[0].value, up, down, max, n);
      KeywordsDegrade(ks[1..], up, down, max,
                      if ks[0].arg.None? then n else Run(ks[0].value, up, max, n).steps);
    }
  }

  // ------------------------------------------------------------- the decision

  lemma {:induction false} ErroredAppends(a: seq<RuleOutcome>, b: seq<RuleOutcome>)
    ensures Errored(a + b) == Errored(a) + Errored(b)
  {
    if a == [] {
      assert a + b == b;
    } else {
      ErroredAppends(a[1..], b);
      assert (a + b)[1..] == a[1..] + b;
    }
  }

  lemma {:induction false} EachDegrades(rs: seq<CompiledRule>, up: Context, down: Context, max: nat)
    requires Degrades(up, down) && EvaluateEach(rs, up, max).Some?
    ensures EvaluateEach(rs, down, max).Some?
    ensures Errored(EvaluateEach(rs, down, max).value) == [] ==>
              EvaluateEach(rs, down, max) == EvaluateEach(rs, up, max)
  {
    if rs != [] {
      RunDegrades(rs[0].tree, up, down, max, 0);
      EachDegrades(rs[1..], up, down, max);
      var first, rest := EvaluateOne(rs[0], down, max).value, EvaluateEach(rs[1..], down, max).value;
      assert ([first] + rest)[1..] == rest;
    }
  }

  lemma {:induction false} FiresDegrades(r: CompiledRule, up: Context, down: Context, fallback: Policy, max: nat)
    requires Degrades(up, down) && FailsClosed(fallback, r.severity) && Fires(r, up, fallback, max)
    ensures Fires(r, down, fallback, max)
  {
    RunDegrades(r.tree, up, down, max, 0);
  }

  lemma {:induction false} BlockSurvives(rs: seq<CompiledRule>, up: Context, down: Context, fallback: Policy, max: nat)
    requires Degrades(up, down) && FailsClosed(fallback, Block) && BlockFires(rs, up, fallback, max)
    ensures BlockFires(rs, down, fallback, max)
  {
    var r :| r in rs && r.state == Active && r.severity == Block && Fires(r, up, fallback, max);
    FiresDegrades(r, up, down, fallback, max);
  }

  /** A context that has only lost things never makes a decision escape, and never
      decides differently without saying that it is degraded. */
  lemma {:induction false} OutageIsReported(rules: seq<CompiledRule>, up: Context, down: Context, fallback: Policy,
                                            max: nat)
    requires Degrades(up, down) && Decide(rules, up, fallback, max).Decided?
    ensures var d := Decide(rules, down, fallback, max);
            d.Decided? && (!d.d.degraded ==> d == Decide(rules, up, fallback, max))
  {
    var active, shadow := Select(rules, IsActive()), Select(rules, IsShadow());
    EachDegrades(active, up, down, max);
    EachDegrades(shadow, up, down, max);
    ErroredAppends(EvaluateEach(active, down, max).value, EvaluateEach(shadow, down, max).value);
  }

  /** Nor does it let through what was blocked, when blocks fail closed. */
  lemma {:induction false} OutageKeepsBlocks(rs: seq<CompiledRule>, up: Context, down: Context, fallback: Policy,
                                             max: nat)
    requires UniqueIds(rs) && Degrades(up, down) && FailsClosed(fallback, Block)
    requires Decide(RuleSet(rs), up, fallback, max).Decided?
    requires Decide(RuleSet(rs), up, fallback, max).d.outcome == Blocked
    ensures Decide(RuleSet(rs), down, fallback, max).Decided?
    ensures Decide(RuleSet(rs), down, fallback, max).d.outcome == Blocked
  {
    OutageIsReported(RuleSet(rs), up, down, fallback, max);
    BlockedIff(rs, up, fallback, max);
    BlockedIff(rs, down, fallback, max);
    BlockSurvives(rs, up, down, fallback, max);
  }
}
