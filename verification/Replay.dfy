/** Facts that survive storage, and evaluations that depend on nothing else. */
module Replay {
  import opened Values
  import opened Syntax
  import opened Interpretation
  import opened Functions
  import opened Validator

  type Facts = map<string, Value>

  // ------------------------------------------------------------------- storage

  /** A value as JSON keeps it: every sequence is a list. */
  function Json(v: Value): Value
    decreases v
  {
    match v
    case Tuple(items) => List(JsonAll(items))
    case List(items) => List(JsonAll(items))
    case _ => v
  }

  function JsonAll(vs: seq<Value>): (r: seq<Value>)
    ensures |r| == |vs|
    decreases vs
  {
    if vs == [] then [] else [Json(vs[0])] + JsonAll(vs[1..])
  }

  /** Reading back: only a top-level list becomes a tuple again. */
  function Restored(v: Value): Value {
    if v.List? then Tuple(v.items) else v
  }

  function StoredFacts(facts: Facts): Facts {
    map n | n in facts :: Json(facts[n])
  }

  function RestoredFacts(facts: Facts): Facts {
    map n | n in facts :: Restored(facts[n])
  }

  /** A value with no tuple anywhere inside, as everything out of JSON is. */
  predicate Plain(v: Value)
    decreases v
  {
    match v
    case Tuple(_) => false
    case List(items) => PlainAll(items)
    case _ => true
  }

  predicate PlainAll(vs: seq<Value>)
    decreases vs
  {
    vs == [] || (Plain(vs[0]) && PlainAll(vs[1..]))
  }

  lemma {:induction false} JsonKeepsIff(v: Value)
    ensures Json(v) == v <==> Plain(v)
    decreases v
  {
    match v
    case Tuple(items) =>
    case List(items) => JsonAllKeepsIff(items);
    case _ =>
  }

  lemma {:induction false} JsonAllKeepsIff(vs: seq<Value>)
    ensures JsonAll(vs) == vs <==> PlainAll(vs)
    decreases vs
  {
    if vs != [] {
      JsonKeepsIff(vs[0]);
      JsonAllKeepsIff(vs[1..]);
      assert vs == [vs[0]] + vs[1..];
      var kept := [Json(vs[0])] + JsonAll(vs[1..]);
      assert kept[0] == Json(vs[0]) && kept[1..] == JsonAll(vs[1..]);
    }
  }

  /** What comes back from storage as it went in. */
  predicate Storable(v: Value) {
    if v.Tuple? then PlainAll(v.items) else !v.List?
  }

  lemma {:induction false} StorageIff(v: Value)
    ensures Restored(Json(v)) == v <==> Storable(v)
  {
    if v.Tuple? {
      JsonAllKeepsIff(v.items);
    }
  }

  lemma {:induction false} FactsSurviveIff(facts: Facts)
    ensures RestoredFacts(StoredFacts(facts)) == facts <==> forall n | n in facts :: Storable(facts[n])
  {
    var back := RestoredFacts(StoredFacts(facts));
    forall n | n in facts ensures n in back && (back[n] == facts[n] <==> Storable(facts[n])) {
      StorageIff(facts[n]);
    }
  }

  // ------------------------------------------------------- names and calls

  /** Every name in the tree, the names of called functions among them. */
  function Names(e: Expr): set<string>
    decreases e
  {
    match e
    case Const(_) => {}
    case Name(id) => {id}
    case BoolOp(_, values) => NamesAll(values)
    case UnaryOp(_, x) => Names(x)
    case Compare(left, links) => Names(left) + NamesLinks(links)
    case BinOp(l, _, r) => Names(l) + Names(r)
    case Call(f, args, keywords) => Names(f) + NamesAll(args) + NamesKeywords(keywords)
    case ListLit(elts) => NamesAll(elts)
    case TupleLit(elts) => NamesAll(elts)
    case Other(_, children) => NamesAll(children)
  }

  function NamesAll(es: seq<Expr>): set<string>
    decreases es
  {
    if es == [] then {} else Names(es[0]) + NamesAll(es[1..])
  }

  function NamesLinks(ls: seq<Link>): set<string>
    decreases ls
  {
    if ls == [] then {}
    else
      assert (ls decreases to ls[0]);
      Names(ls[0].operand) + NamesLinks(ls[1..])
  }

  function NamesKeywords(ks: seq<Keyword>): set<string>
    decreases ks
  {
    if ks == [] then {}
    else
      assert (ks decreases to ks[0]);
      Names(ks[0].value) + NamesKeywords(ks[1..])
  }

  /** The names the tree reads as facts. */
  function Reads(e: Expr): set<string>
    decreases e
  {
    match e
    case Const(_) => {}
    case Name(id) => {id}
    case BoolOp(_, values) => ReadsAll(values)
    case UnaryOp(_, x) => Reads(x)
    case Compare(left, links) => Reads(left) + ReadsLinks(links)
    case BinOp(l, _, r) => Reads(l) + Reads(r)
    case Call(f, args, keywords) => (if f.Name? then {} else Reads(f)) + ReadsAll(args) + ReadsKeywords(keywords)
    case ListLit(elts) => ReadsAll(elts)
    case TupleLit(elts) => ReadsAll(elts)
    case Other(_, children) => ReadsAll(children)
  }

  function ReadsAll(es: seq<Expr>): set<string>
    decreases es
  {
    if es == [] then {} else Reads(es[0]) + ReadsAll(es[1..])
  }

  function ReadsLinks(ls: seq<Link>): set<string>
    decreases ls
  {
    if ls == [] then {}
    else
      assert (ls decreases to ls[0]);
      Reads(ls[0].operand) + ReadsLinks(ls[1..])
  }

  function ReadsKeywords(ks: seq<Keyword>): set<string>
    decreases ks
  {
    if ks == [] then {}
    else
      assert (ks decreases to ks[0]);
      Reads(ks[0].value) + ReadsKeywords(ks[1..])
  }

  /** The names of the functions it calls, wherever the call stands. */
  function Calls(e: Expr): set<string>
    decreases e
  {
    match e
    case Const(_) => {}
    case Name(_) => {}
    case BoolOp(_, values) => CallsAll(values)
    case UnaryOp(_, x) => Calls(x)
    case Compare(left, links) => Calls(left) + CallsLinks(links)
    case BinOp(l, _, r) => Calls(l) + Calls(r)
    case Call(f, args, keywords) => (if f.Name? then {f.id} else Calls(f)) + CallsAll(args) + CallsKeywords(keywords)
    case ListLit(elts) => CallsAll(elts)
    case TupleLit(elts) => CallsAll(elts)
    case Other(_, children) => CallsAll(children)
  }

  function CallsAll(es: seq<Expr>): set<string>
    decreases es
  {
    if es == [] then {} else Calls(es[0]) + CallsAll(es[1..])
  }

  function CallsLinks(ls: seq<Link>): set<string>
    decreases ls
  {
    if ls == [] then {}
    else
      assert (ls decreases to ls[0]);
      Calls(ls[0].operand) + CallsLinks(ls[1..])
  }

  function CallsKeywords(ks: seq<Keyword>): set<string>
    decreases ks
  {
    if ks == [] then {}
    else
      assert (ks decreases to ks[0]);
      Calls(ks[0].value) + CallsKeywords(ks[1..])
  }

  /** Walking a tree for names finds those read and those called alike. */
  lemma {:induction false} NamesAreReadOrCalled(e: Expr)
    ensures Names(e) == Reads(e) + Calls(e)
    decreases e
  {
    match e
    case BoolOp(_, values) => NamesAllSplit(values);
    case UnaryOp(_, x) => NamesAreReadOrCalled(x);
    case Compare(left, links) =>
      NamesAreReadOrCalled(left);
      NamesLinksSplit(links);
    case BinOp(l, _, r) =>
      NamesAreReadOrCalled(l);
      NamesAreReadOrCalled(r);
    case Call(f, args, keywords) =>
      NamesAreReadOrCalled(f);
      NamesAllSplit(args);
      NamesKeywordsSplit(keywords);
    case ListLit(elts) => NamesAllSplit(elts);
    case TupleLit(elts) => NamesAllSplit(elts);
    case Other(_, children) => NamesAllSplit(children);
    case _ =>
  }

  lemma {:induction false} NamesAllSplit(es: seq<Expr>)
    ensures NamesAll(es) == ReadsAll(es) + CallsAll(es)
    decreases es
  {
    if es != [] {
      NamesAreReadOrCalled(es[0]);
      NamesAllSplit(es[1..]);
    }
  }

  lemma {:induction false} NamesLinksSplit(ls: seq<Link>)
    ensures NamesLinks(ls) == ReadsLinks(ls) + CallsLinks(ls)
    decreases ls
  {
    if ls != [] {
      assert (ls decreases to ls[0]);
      NamesAreReadOrCalled(ls[0].operand);
      NamesLinksSplit(ls[1..]);
    }
  }

  lemma {:induction false} NamesKeywordsSplit(ks: seq<Keyword>)
    ensures NamesKeywords(ks) == ReadsKeywords(ks) + CallsKeywords(ks)
    decreases ks
  {
    if ks != [] {
      assert (ks decreases to ks[0]);
      NamesAreReadOrCalled(ks[0].value);
      NamesKeywordsSplit(ks[1..]);
    }
  }

  predicate CallFree(e: Expr)
    decreases e
  {
    match e
    case Const(_) => true
    case Name(_) => true
    case BoolOp(_, values) => CallFreeAll(values)
    case UnaryOp(_, x) => CallFree(x)
    case Compare(left, links) => CallFree(left) && CallFreeLinks(links)
    case BinOp(l, _, r) => CallFree(l) && CallFree(r)
    case Call(_, _, _) => false
    case ListLit(elts) => CallFreeAll(elts)
    case TupleLit(elts) => CallFreeAll(elts)
    case Other(_, _) => true
  }

  predicate CallFreeAll(es: seq<Expr>)
    decreases es
  {
    es == [] || (CallFree(es[0]) && CallFreeAll(es[1..]))
  }

  predicate CallFreeLinks(ls: seq<Link>)
    decreases ls
  {
    ls == [] || (assert (ls decreases to ls[0]); CallFree(ls[0].operand) && CallFreeLinks(ls[1..]))
  }

  /** A validated tree with a call anywhere calls one of the engine's functions. */
  lemma {:induction false} CallsAreSpecified(e: Expr)
    requires Visit(e) == Pass
    ensures Calls(e) <= SPECS.Keys && (CallFree(e) <==> Calls(e) == {})
    decreases e
  {
    match e
    case BoolOp(_, values) => CallsAllSpecified(values);
    case UnaryOp(_, x) => CallsAreSpecified(x);
    case Compare(left, links) =>
      CallsAreSpecified(left);
      CallsLinksSpecified(links);
    case BinOp(l, _, r) =>
      CallsAreSpecified(l);
      CallsAreSpecified(r);
    case Call(f, args, keywords) =>
      CallsAllSpecified(args);
      CallsKeywordsSpecified(keywords);
      assert f.id in Calls(e);
    case ListLit(elts) => CallsAllSpecified(elts);
    case TupleLit(elts) => CallsAllSpecified(elts);
    case _ =>
  }

  lemma {:induction false} CallsAllSpecified(es: seq<Expr>)
    requires VisitAll(es) == Pass
    ensures CallsAll(es) <= SPECS.Keys && (CallFreeAll(es) <==> CallsAll(es) == {})
    decreases es
  {
    if es != [] {
      CallsAreSpecified(es[0]);
      CallsAllSpecified(es[1..]);
    }
  }

  lemma {:induction false} CallsLinksSpecified(ls: seq<Link>)
    requires VisitLinks(ls) == Pass
    ensures CallsLinks(ls) <= SPECS.Keys && (CallFreeLinks(ls) <==> CallsLinks(ls) == {})
    decreases ls
  {
    if ls != [] {
      assert (ls decreases to ls[0]);
      CallsAreSpecified(ls[0].operand);
      CallsLinksSpecified(ls[1..]);
    }
  }

  lemma {:induction false} CallsKeywordsSpecified(ks: seq<Keyword>)
    requires VisitKeywords(ks) == Pass
    ensures CallsKeywords(ks) <= SPECS.Keys
    decreases ks
  {
    if ks != [] {
      assert (ks decreases to ks[0]);
      CallsAreSpecified(ks[0].value);
      CallsKeywordsSpecified(ks[1..]);
    }
  }

  // ------------------------------------------- evaluation without functions

  /** A tree without calls depends on the facts alone. */
  lemma {:induction false} RunIgnoresFunctions(e: Expr, c: Context, d: Context, max: nat, n: nat)
    requires CallFree(e) && c.facts == d.facts
    ensures Run(e, c, max, n) == Run(e, d, max, n)
    decreases e
  {
    if n + 1 <= max {
      match e
      case BoolOp(op, values) => BoolIgnoresFunctions(op, values, c, d, max, n + 1);
      case UnaryOp(_, x) => RunIgnoresFunctions(x, c, d, max, n + 1);
      case Compare(left, links) =>
        RunIgnoresFunctions(left, c, d, max, n + 1);
        var l := Run(left, c, max, n + 1);
        if l.out.Val? {
          LinksIgnoreFunctions(l.out.v, links, c, d, max, l.steps);
        }
      case BinOp(left, _, right) =>
        RunIgnoresFunctions(left, c, d, max, n + 1);
        RunIgnoresFunctions(right, c, d, max, Run(left, c, max, n + 1).steps);
      case ListLit(elts) => AllIgnoreFunctions(elts, c, d, max, n + 1);
      case TupleLit(elts) => AllIgnoreFunctions(elts, c, d, max, n + 1);
      case _ =>
    }
  }

  lemma {:induction false} BoolIgnoresFunctions(op: BoolOperator, es: seq<Expr>, c: Context, d: Context, max: nat,
                                                n: nat)
    requires CallFreeAll(es) && c.facts == d.facts
    ensures RunBool(op, es, c, max, n) == RunBool(op, es, d, max, n)
    decreases es
  {
    if es != [] {
      RunIgnoresFunctions(es[0], c, d, max, n);
      BoolIgnoresFunctions(op, es[1..], c, d, max, Run(es[0], c, max, n).steps);
    }
  }

  lemma {:induction false} LinksIgnoreFunctions(l: Value, links: seq<Link>, c: Context, d: Context, max: nat, n: nat)
    requires CallFreeLinks(links) && c.facts == d.facts
    ensures RunLinks(l, links, c, max, n) == RunLinks(l, links, d, max, n)
    decreases links
  {
    if links != [] {
      assert (links decreases to links[0]);
      RunIgnoresFunctions(links[0].operand, c, d, max, n);
      var r := Run(links[0].operand, c, max, n);
      if r.out.Val? {
        LinksIgnoreFunctions(r.out.v, links[1..], c, d, max, r.steps);
      }
    }
  }

  lemma {:induction false} AllIgnoreFunctions(es: seq<Expr>, c: Context, d: Context, max: nat, n: nat)
    requires CallFreeAll(es) && c.facts == d.facts
    ensures RunAll(es, c, max, n) == RunAll(es, d, max, n)
    decreases es
  {
    if es != [] {
      RunIgnoresFunctions(es[0], c, d, max, n);
      AllIgnoreFunctions(es[1..], c, d, max, Run(es[0], c, max, n).steps);
    }
  }

  // ---------------------------------------------------- no fact is unknown

  predicate Known<T>(o: Outcome<T>) {
    !(o.RuleErr? && o.error.UnknownFact?)
  }

  /** No function complains of an unknown fact: none of them reads facts. */
  ghost predicate FunctionsKnow(c: Context) {
    forall n, xs, ks | n in c.functions :: Known(c.functions[n](xs, ks))
  }

  lemma {:induction false} RunKnows(e: Expr, c: Context, max: nat, n: nat)
    requires Names(e) <= c.facts.Keys && FunctionsKnow(c)
    ensures Known(Run(e, c, max, n).out)
    decreases e, 1
  {
    if n + 1 <= max {
      match e
      case BoolOp(op, values) => BoolKnows(op, values, c, max, n + 1);
      case UnaryOp(_, x) => RunKnows(x, c, max, n + 1);
      case Compare(left, links) =>
        RunKnows(left, c, max, n + 1);
        var l := Run(left, c, max, n + 1);
        if l.out.Val? {
          LinksKnow(l.out.v, links, c, max, l.steps);
        }
      case BinOp(left, _, right) =>
        RunKnows(left, c, max, n + 1);
        RunKnows(right, c, max, Run(left, c, max, n + 1).steps);
      case Call(_, _, _) => CallKnows(e, c, max, n);
      case ListLit(elts) => AllKnow(elts, c, max, n + 1);
      case TupleLit(elts) => AllKnow(elts, c, max, n + 1);
      case _ =>
    }
  }

  lemma {:induction false} CallKnows(e: Expr, c: Context, max: nat, n: nat)
    requires e.Call? && Names(e) <= c.facts.Keys && FunctionsKnow(c) && n + 1 <= max
    ensures Known(Run(e, c, max, n).out)
    decreases e, 0
  {
    AllKnow(e.args, c, max, n + 1);
    KeywordsKnow(e.keywords, c, max, RunAll(e.args, c, max, n + 1).steps);
  }

  lemma {:induction false} BoolKnows(op: BoolOperator, es: seq<Expr>, c: Context, max: nat, n: nat)
    requires NamesAll(es) <= c.facts.Keys && FunctionsKnow(c)
    ensures Known(RunBool(op, es, c, max, n).out)
    decreases es
  {
    if es != [] {
      RunKnows(es[0], c, max, n);
      BoolKnows(op, es[1..], c, max, Run(es[0], c, max, n).steps);
    }
  }

  lemma {:induction false} LinksKnow(l: Value, links: seq<Link>, c: Context, max: nat, n: nat)
    requires NamesLinks(links) <= c.facts.Keys && FunctionsKnow(c)
    ensures Known(RunLinks(l, links, c, max, n).out)
    decreases links
  {
    if links != [] {
      assert (links decreases to links[0]);
      RunKnows(links[0].operand, c, max, n);
      var r := Run(links[0].operand, c, max, n);
      if r.out.Val? {
        LinksKnow(r.out.v, links[1..], c, max, r.steps);
      }
    }
  }

  lemma {:induction false} AllKnow(es: seq<Expr>, c: Context, max: nat, n: nat)
    requires NamesAll(es) <= c.facts.Keys && FunctionsKnow(c)
    ensures Known(RunAll(es, c, max, n).out)
    decreases es
  {
    if es != [] {
      RunKnows(es[0], c, max, n);
      AllKnow(es[1..], c, max, Run(es[0], c, max, n).steps);
    }
  }

  lemma {:induction false} KeywordsKnow(ks: seq<Keyword>, c: Context, max: nat, n: nat)
    requires NamesKeywords(ks) <= c.facts.Keys && FunctionsKnow(c)
    ensures Known(RunKeywords(ks, c, max, n).out)
    decreases ks
  {
    if ks != [] {
      assert (ks decreases to ks[0]);
      RunKnows(ks[0].value, c, max, n);
      KeywordsKnow(ks[1..], c, max, if ks[0].arg.None? then n else Run(ks[0].value, c, max, n).steps);
    }
  }

  lemma {:induction false} VelocityKnows(p: Provider, counting: bool, xs: seq<Value>, ks: Kwargs)
    ensures Known(VelocityCall(p, counting, xs, ks))
  {
    var bound := Bind(VELOCITY_PARAMS, {"window"}, xs, ks);
    if bound.Val? && WindowSeconds(bound.v["window"]).Val? && p.Live? {
      MatchingFaultsIff(p.window.entries, p.window.now - WindowSeconds(bound.v["window"]).v, FilterOf(bound.v));
    }
  }

  lemma {:induction false} LookupsKnow(clock: Clock, xs: seq<Value>, ks: Kwargs)
    ensures Known(DaysSince(clock, xs, ks)) && Known(HourOfDay(clock, xs, ks)) && Known(InList(xs, ks))
  {
  }

  lemma {:induction false} NumericsKnow(xs: seq<Value>, ks: Kwargs)
    ensures Known(AbsValue(xs, ks)) && Known(PercentOf(xs, ks))
    ensures Known(Pick(true, xs, ks)) && Known(Pick(false, xs, ks))
  {
  }

  lemma {:induction false} EngineFunctionKnows(p: Provider, clock: Clock, n: string, xs: seq<Value>, ks: Kwargs)
    requires n in Build(p, clock)
    ensures Known(Build(p, clock)[n](xs, ks))
  {
    if n == "velocity_count" || n == "velocity_sum" {
      VelocityKnows(p, n == "velocity_count", xs, ks);
    } else if n == "days_since" || n == "hour_of_day" || n == "in_list" {
      LookupsKnow(clock, xs, ks);
    } else {
      NumericsKnow(xs, ks);
    }
  }

  /** None of the engine's functions reports an unknown fact. */
  lemma {:induction false} EngineFunctionsKnow(facts: Facts, p: Provider, clock: Clock)
    ensures FunctionsKnow(Context(facts, Build(p, clock)))
  {
    forall n, xs, ks | n in Build(p, clock) ensures Known(Build(p, clock)[n](xs, ks)) {
      EngineFunctionKnows(p, clock, n, xs, ks);
    }
  }
}
