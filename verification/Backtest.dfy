/** Running a rule, or a whole rule set, against decisions that already happened. */
module Backtest {
  import opened Values
  import opened Syntax
  import opened Interpretation
  import opened Evaluation
  import opened Sorting
  import opened Replay
  import Functions
  import Validator

  type FunctionTable = map<string, Function>

  datatype Past = Past(id: string, ref: string, amount: int, currency: string, decidedAt: string, outcome: string,
                       facts: Option<Facts>)

  datatype Sample = Sample(id: string, ref: string, amount: int, currency: string, decidedAt: string, outcome: string)

  datatype Confidence = Exact | Partial | Unavailable

  datatype Impact = Impact(confidence: Confidence, considered: nat, skipped: nat, matched: nat, errored: nat,
                           samples: seq<Sample>, missing: set<string>)

  /** A report, a syntax error, or a host exception out of an evaluation. */
  datatype Report = Report(impact: Impact) | SyntaxError | Aborted

  function FactsOf(d: Past): Facts {
    if d.facts.Some? then d.facts.value else map[]
  }

  function ContextOf(d: Past, functions: FunctionTable): Context {
    Context(RestoredFacts(FactsOf(d)), functions)
  }

  function SampleOf(d: Past): Sample {
    Sample(d.id, d.ref, d.amount, d.currency, d.decidedAt, d.outcome)
  }

  /** Did this decision record everything the rule names? */
  predicate Answerable(tree: Expr, d: Past) {
    Names(tree) <= FactsOf(d).Keys
  }

  /** What a candidate rule says of one decision: nothing, if it cannot be asked. */
  type Verdicts = Past -> Option<Outcome<bool>>

  function Judge(tree: Expr, functions: FunctionTable): Verdicts {
    (d: Past) =>
      if Answerable(tree, d) then Some(Truth(Run(tree, ContextOf(d, functions), MAX_STEPS, 0).out)) else None
  }

  // ------------------------------------------------------------- the report

  function Pick(ds: seq<Past>, p: Past -> bool): seq<Past> {
    if ds == [] then []
    else
      var last := ds[|ds| - 1];
      Pick(ds[..|ds| - 1], p) + (if p(last) then [last] else [])
  }

  function Considered(v: Verdicts): Past -> bool {
    (d: Past) => v(d).Some?
  }

  function Skipped(v: Verdicts): Past -> bool {
    (d: Past) => v(d).None?
  }

  function MatchedBy(v: Verdicts): Past -> bool {
    (d: Past) => v(d) == Some(Val(true))
  }

  function ErroredBy(v: Verdicts): Past -> bool {
    (d: Past) => v(d).Some? && v(d).value.RuleErr?
  }

  function EscapedBy(v: Verdicts): Past -> bool {
    (d: Past) => v(d).Some? && v(d).value.HostErr?
  }

  function Missing(tree: Expr, ds: seq<Past>): set<string> {
    if ds == [] then {} else Missing(tree, ds[..|ds| - 1]) + (Names(tree) - FactsOf(ds[|ds| - 1]).Keys)
  }

  function Samples(ds: seq<Past>): seq<Sample> {
    seq(|ds|, i requires 0 <= i < |ds| => SampleOf(ds[i]))
  }

  function First(ds: seq<Past>, limit: int): seq<Past> {
    if limit <= 0 then [] else if |ds| <= limit then ds else ds[..limit]
  }

  /** The counts and samples after these decisions. */
  ghost predicate Tallied(i: Impact, v: Verdicts, ds: seq<Past>, limit: int) {
    && i.considered == |Pick(ds, Considered(v))|
    && i.skipped == |Pick(ds, Skipped(v))|
    && i.matched == |Pick(ds, MatchedBy(v))|
    && i.errored == |Pick(ds, ErroredBy(v))|
    && i.samples == Samples(First(Pick(ds, MatchedBy(v)), limit))
  }

  /** Every decision is considered or skipped, and each considered one matches, fails,
      does neither or escapes. */
  lemma {:induction false} PicksAddUp(v: Verdicts, ds: seq<Past>)
    ensures |Pick(ds, Considered(v))| + |Pick(ds, Skipped(v))| == |ds|
    ensures |Pick(ds, MatchedBy(v))| + |Pick(ds, ErroredBy(v))| <= |Pick(ds, Considered(v))|
  {
    if ds != [] {
      PicksAddUp(v, ds[..|ds| - 1]);
    }
  }

  /** A name is reported missing if the rule needs it and some decision lacks it. */
  lemma {:induction false} MissingAre(tree: Expr, ds: seq<Past>, name: string)
    ensures name in Missing(tree, ds)
       <==> name in Names(tree) && exists d | d in ds :: d.facts.None? || name !in d.facts.value
  {
    if ds != [] {
      MissingAre(tree, ds[..|ds| - 1], name);
      assert ds == ds[..|ds| - 1] + [ds[|ds| - 1]];
    }
  }

  /** The samples are the first matched decisions, at most `limit` of them, each with its
      own reference, amount, currency, time and outcome. */
  lemma {:induction false} SamplesAre(i: Impact, v: Verdicts, ds: seq<Past>, limit: int)
    requires Tallied(i, v, ds, limit)
    ensures |i.samples| == if limit <= 0 then 0 else if i.matched <= limit then i.matched else limit
    ensures |i.samples| <= |Pick(ds, MatchedBy(v))|
    ensures forall k | 0 <= k < |i.samples| ::
              var s, d := i.samples[k], Pick(ds, MatchedBy(v))[k];
              && s.id == d.id && s.ref == d.ref && s.amount == d.amount && s.currency == d.currency
              && s.decidedAt == d.decidedAt && s.outcome == d.outcome
  {
    var taken := First(Pick(ds, MatchedBy(v)), limit);
    forall k | 0 <= k < |i.samples| ensures i.samples[k] == SampleOf(Pick(ds, MatchedBy(v))[k]) {
      assert i.samples[k] == SampleOf(taken[k]);
    }
  }

  lemma {:induction false} SamplesNext(ds: seq<Past>, d: Past, limit: int)
    ensures var taken := Samples(First(ds, limit));
            Samples(First(ds + [d], limit)) == if |taken| < limit then taken + [SampleOf(d)] else taken
    ensures ds + [] == ds
  {
    var taken := Samples(First(ds, limit));
    if |taken| < limit {
      assert First(ds, limit) == ds && First(ds + [d], limit) == ds + [d];
    } else {
      assert First(ds + [d], limit) == First(ds, limit);
    }
  }

  method RunBacktest(parse: string -> Option<Expr>, expression: string, ds: seq<Past>, limit: int,
                     functions: FunctionTable)
    returns (r: Report)
    ensures r == SyntaxError <==> parse(expression).None?
    ensures r == Aborted
       <==> && parse(expression).Some?
            && exists d | d in ds :: EscapedBy(Judge(parse(expression).value, functions))(d)
    ensures r.Report? ==>
              && Tallied(r.impact, Judge(parse(expression).value, functions), ds, limit)
              && r.impact.missing == Missing(parse(expression).value, ds)
              && r.impact.considered + r.impact.skipped == |ds|
              && r.impact.matched + r.impact.errored <= r.impact.considered
              && (r.impact.confidence == Exact <==> r.impact.skipped == 0)
              && (r.impact.confidence == Unavailable <==> r.impact.skipped > 0 && r.impact.considered == 0)
  {
    var parsed := parse(expression);
    if parsed.None? {
      return SyntaxError;
    }
    var gathered := Gather(parsed.value, Judge(parsed.value, functions), ds, limit);
    if gathered.None? {
      return Aborted;
    }
    GatheredTallied(parsed.value, Judge(parsed.value, functions), ds, limit);
    PicksAddUp(Judge(parsed.value, functions), ds);
    r := Report(Rated(gathered.value));
  }

  function Rated(i: Impact): Impact {
    i.(confidence := if i.skipped == 0 then Exact else if i.considered == 0 then Unavailable else Partial)
  }

  const NO_IMPACT := Impact(Exact, 0, 0, 0, 0, [], {})

  /** The impact gathered from these decisions, one at a time. */
  function Gathered(tree: Expr, v: Verdicts, ds: seq<Past>, limit: int): Impact {
    if ds == [] then NO_IMPACT
    else Tally(Gathered(tree, v, ds[..|ds| - 1], limit), tree, v, ds[|ds| - 1], limit)
  }

  /** The loop over the decisions; None when one of them escapes. */
  method Gather(tree: Expr, v: Verdicts, ds: seq<Past>, limit: int) returns (r: Option<Impact>)
    ensures r.None? <==> exists d | d in ds :: EscapedBy(v)(d)
    ensures r.Some? ==> r.value == Gathered(tree, v, ds, limit)
  {
    var impact := NO_IMPACT;
    var i := 0;
    while i < |ds|
      invariant 0 <= i <= |ds| && impact == Gathered(tree, v, ds[..i], limit)
      invariant forall d | d in ds[..i] :: !EscapedBy(v)(d)
    {
      var d := ds[i];
      if EscapedBy(v)(d) {
        return None;
      }
      assert ds[..i + 1][..i] == ds[..i];
      impact := Consider(impact, tree, v, d, limit);
      i := i + 1;
    }
    assert ds[..i] == ds;
    r := Some(impact);
  }

  method Consider(i: Impact, tree: Expr, v: Verdicts, d: Past, limit: int) returns (impact: Impact)
    requires !EscapedBy(v)(d)
    ensures impact == Tally(i, tree, v, d, limit)
  {
    impact := i.(missing := i.missing + (Names(tree) - FactsOf(d).Keys));
    var verdict := v(d);
    if verdict.None? {
      impact := impact.(skipped := impact.skipped + 1);
      return;
    }
    impact := impact.(considered := impact.considered + 1);
    if verdict.value.RuleErr? {
      impact := impact.(errored := impact.errored + 1);
    } else if verdict.value.v {
      impact := impact.(matched := impact.matched + 1);
      if |impact.samples| < limit {
        impact := impact.(samples := impact.samples + [SampleOf(d)]);
      }
    }
  }

  /** One turn of the loop. */
  function Tally(i: Impact, tree: Expr, v: Verdicts, d: Past, limit: int): Impact {
    var matched := MatchedBy(v)(d);
    i.(considered := i.considered + (if Considered(v)(d) then 1 else 0),
       skipped := i.skipped + (if Skipped(v)(d) then 1 else 0),
       matched := i.matched + (if matched then 1 else 0),
       errored := i.errored + (if ErroredBy(v)(d) then 1 else 0),
       samples := if matched && |i.samples| < limit then i.samples + [SampleOf(d)] else i.samples,
       missing := i.missing + (Names(tree) - FactsOf(d).Keys))
  }

  lemma {:induction false} GatheredTallied(tree: Expr, v: Verdicts, ds: seq<Past>, limit: int)
    ensures Tallied(Gathered(tree, v, ds, limit), v, ds, limit)
    ensures Gathered(tree, v, ds, limit).missing == Missing(tree, ds)
  {
    if ds != [] {
      GatheredTallied(tree, v, ds[..|ds| - 1], limit);
      SamplesNext(Pick(ds[..|ds| - 1], MatchedBy(v)), ds[|ds| - 1], limit);
    }
  }

  // ------------------------------------------------- what a backtest can answer

  /** No considered decision fails on a fact nobody recorded. */
  lemma {:induction false} ConsideredKnows(tree: Expr, functions: FunctionTable, d: Past)
    requires Judge(tree, functions)(d).Some? && FunctionsKnow(ContextOf(d, functions))
    ensures Known(Judge(tree, functions)(d).value)
  {
    RunKnows(tree, ContextOf(d, functions), MAX_STEPS, 0);
  }

  /** The names a rule is taken to need include those of the functions it calls. Of a
      decision that recorded every fact the rule reads, it is asked exactly when a
      fact also bears the name of every function it calls. */
  lemma {:induction false} AskedIff(tree: Expr, functions: FunctionTable, d: Past)
    requires Reads(tree) <= FactsOf(d).Keys
    ensures Judge(tree, functions)(d).Some? <==> Calls(tree) <= FactsOf(d).Keys
  {
    NamesAreReadOrCalled(tree);
  }

  /** So a rule with a call anywhere in it is considered of no decision whose facts do
      not happen to bear the function's name, whatever `functions` offers. */
  lemma {:induction false} CallsAreMissingFacts(tree: Expr, functions: FunctionTable, ds: seq<Past>, name: string)
    requires name in Calls(tree) && forall d | d in ds :: name !in FactsOf(d)
    ensures Pick(ds, Considered(Judge(tree, functions))) == []
  {
    NamesAreReadOrCalled(tree);
    NonePicked(ds, Considered(Judge(tree, functions)));
  }

  /** A validated rule that is not call-free is considered of no decision at all, in
      any history without a fact named like one of the engine's functions. */
  lemma {:induction false} CallingRulesNeverConsidered(tree: Expr, functions: FunctionTable, ds: seq<Past>)
    requires Validator.Validate(tree) == Validator.Pass && !CallFree(tree)
    requires forall d, n | d in ds && n in Functions.SPECS :: n !in FactsOf(d)
    ensures Pick(ds, Considered(Judge(tree, functions))) == []
  {
    CallsAreSpecified(tree);
    var name :| name in Calls(tree);
    CallsAreMissingFacts(tree, functions, ds, name);
  }

  lemma {:induction false} NonePicked(ds: seq<Past>, p: Past -> bool)
    requires forall d | d in ds :: !p(d)
    ensures Pick(ds, p) == []
  {
    if ds != [] {
      NonePicked(ds[..|ds| - 1], p);
    }
  }

  // ---------------------------------------------------------------- replaying

  /** Re-deciding stored facts: no functions and the default fallback. */
  function ReplayDecision(rs: seq<CompiledRule>, stored: Facts): Decided {
    Decide(RuleSet(rs), Context(RestoredFacts(stored), map[]), map[], MAX_STEPS)
  }

  ghost predicate AllCallFree(rs: seq<CompiledRule>) {
    forall r | r in rs :: CallFree(r.tree)
  }

  lemma {:induction false} EachIgnoresFunctions(rs: seq<CompiledRule>, c: Context, d: Context)
    requires AllCallFree(rs) && c.facts == d.facts
    ensures EvaluateEach(rs, c, MAX_STEPS) == EvaluateEach(rs, d, MAX_STEPS)
  {
    if rs != [] {
      assert rs[0] in rs;
      RunIgnoresFunctions(rs[0].tree, c, d, MAX_STEPS, 0);
      EachIgnoresFunctions(rs[1..], c, d);
    }
  }

  lemma {:induction false} SelectedCallFree(rs: seq<CompiledRule>, p: CompiledRule -> bool)
    requires AllCallFree(rs)
    ensures AllCallFree(Select(RuleSet(rs), p))
  {
    SortKeeps(RuleBefore, rs);
    MembersOf(RuleSet(rs), rs);
    SelectExactly(RuleSet(rs), p);
  }

  /** Call-free rules decide by the facts alone. */
  lemma {:induction false} DecideIgnoresFunctions(rs: seq<CompiledRule>, c: Context, d: Context, fallback: Policy)
    requires AllCallFree(rs) && c.facts == d.facts
    ensures Decide(RuleSet(rs), c, fallback, MAX_STEPS) == Decide(RuleSet(rs), d, fallback, MAX_STEPS)
  {
    var active, shadow := Select(RuleSet(rs), IsActive()), Select(RuleSet(rs), IsShadow());
    SelectedCallFree(rs, IsActive());
    SelectedCallFree(rs, IsShadow());
    EachIgnoresFunctions(active, c, d);
    EachIgnoresFunctions(shadow, c, d);
  }

  /** Storing the facts and replaying them gives the original decision again. */
  ghost predicate Reproduces(rs: seq<CompiledRule>, facts: Facts, functions: FunctionTable) {
    ReplayDecision(rs, StoredFacts(facts)) == Decide(RuleSet(rs), Context(facts, functions), map[], MAX_STEPS)
  }

  ghost predicate AlwaysReproduces(facts: Facts, functions: FunctionTable) {
    forall rs | AllCallFree(rs) :: Reproduces(rs, facts, functions)
  }

  /** The facts of a decision: what a request carried, straight out of JSON, and named
      lists made tuples of such values. */
  ghost predicate DecisionFacts(facts: Facts) {
    forall n | n in facts :: if facts[n].Tuple? then PlainAll(facts[n].items) else Plain(facts[n])
  }

  lemma {:induction false} StorableReproduces(rs: seq<CompiledRule>, facts: Facts, functions: FunctionTable)
    requires AllCallFree(rs) && forall n | n in facts :: Storable(facts[n])
    ensures Reproduces(rs, facts, functions)
  {
    FactsSurviveIff(facts);
    DecideIgnoresFunctions(rs, Context(facts, functions), Context(facts, map[]), map[]);
  }

  /** `0 in fact`. */
  function MembershipRule(fact: string): CompiledRule {
    CompiledRule("r", "r", Compare(Const(Int(0)), [Link(In, Name(fact))]), Flag, Active, 0, "", "")
  }

  lemma {:induction false} MembershipRuns(fact: string, c: Context)
    requires fact in c.facts
    ensures c.facts[fact].List? ==> Run(MembershipRule(fact).tree, c, MAX_STEPS, 0).out.RuleErr?
    ensures c.facts[fact].Tuple? ==> Run(MembershipRule(fact).tree, c, MAX_STEPS, 0).out.Val?
  {
    var tree := MembershipRule(fact).tree;
    assert Run(tree.left, c, MAX_STEPS, 1).out == Val(Int(0)) && Run(tree.left, c, MAX_STEPS, 1).steps == 2;
    LookedUp(fact, c, MAX_STEPS, 2);
  }

  lemma {:induction false} LookedUp(fact: string, c: Context, max: nat, n: nat)
    requires fact in c.facts && n + 1 <= max
    ensures c.facts[fact].List? ==> RunLinks(Int(0), [Link(In, Name(fact))], c, max, n).out.RuleErr?
    ensures c.facts[fact].Tuple? ==> RunLinks(Int(0), [Link(In, Name(fact))], c, max, n).out.Val?
  {
    var links := [Link(In, Name(fact))];
    assert Run(links[0].operand, c, max, n).out == Val(c.facts[fact]);
    assert links[1..] == [];
    assert RunLinks(c.facts[fact], links[1..], c, max, n + 1).out == Val(Bool(true));
  }

  lemma {:induction false} AloneInSet(r: CompiledRule)
    requires r.state == Active
    ensures RuleSet([r]) == [r] && Select([r], IsActive()) == [r] && Select([r], IsShadow()) == []
  {
    var rs := [r];
    assert rs[..0] == [] && rs[1..] == [];
    assert Sort(RuleBefore, rs[..0]) == [];
    assert Select(rs[1..], IsActive()) == [] && Select(rs[1..], IsShadow()) == [];
  }

  lemma {:induction false} EvaluatedAlone(r: CompiledRule, c: Context)
    requires EvaluateOne(r, c, MAX_STEPS).Some?
    ensures EvaluateEach([r], c, MAX_STEPS) == Some([EvaluateOne(r, c, MAX_STEPS).value])
  {
    assert [r][1..] == [];
    assert EvaluateEach([r][1..], c, MAX_STEPS) == Some([]);
    var o := EvaluateOne(r, c, MAX_STEPS).value;
    assert [o] + [] == [o];
  }

  lemma {:induction false} ErroredAlone(o: RuleOutcome)
    ensures Errored([o] + []) == [] <==> o.error.None?
  {
    assert [o] + [] == [o] && [o][1..] == [];
  }

  lemma {:induction false} OneRuleDegraded(r: CompiledRule, c: Context)
    requires r.state == Active && !Run(r.tree, c, MAX_STEPS, 0).out.HostErr?
    ensures Decide(RuleSet([r]), c, map[], MAX_STEPS).Decided?
    ensures Decide(RuleSet([r]), c, map[], MAX_STEPS).d.degraded <==> Run(r.tree, c, MAX_STEPS, 0).out.RuleErr?
  {
    AloneInSet(r);
    EvaluatedAlone(r, c);
    ErroredAlone(EvaluateOne(r, c, MAX_STEPS).value);
    assert EvaluateEach([], c, MAX_STEPS) == Some([]);
  }

  /** A list that came with the request is not a tuple: looking in it is an error when
      the decision is made and an answer when it is replayed. */
  lemma {:induction false} ListFactsDiverge(facts: Facts, functions: FunctionTable, fact: string)
    requires fact in facts && facts[fact].List?
    ensures CallFree(MembershipRule(fact).tree) && !Reproduces([MembershipRule(fact)], facts, functions)
  {
    var first, back := Context(facts, functions), Context(RestoredFacts(StoredFacts(facts)), map[]);
    MembershipRuns(fact, first);
    MembershipRuns(fact, back);
    DegradedDiffers(MembershipRule(fact), first, back);
  }

  lemma {:induction false} DegradedDiffers(r: CompiledRule, c: Context, d: Context)
    requires r.state == Active && Run(r.tree, c, MAX_STEPS, 0).out.RuleErr? && Run(r.tree, d, MAX_STEPS, 0).out.Val?
    ensures Decide(RuleSet([r]), d, map[], MAX_STEPS) != Decide(RuleSet([r]), c, map[], MAX_STEPS)
  {
    OneRuleDegraded(r, c);
    OneRuleDegraded(r, d);
  }

  /** Every call-free rule set replays a decision's facts to the original decision
      exactly when no fact of it is a list. */
  lemma {:induction false} ReplayReproducesIff(facts: Facts, functions: FunctionTable)
    requires DecisionFacts(facts)
    ensures AlwaysReproduces(facts, functions) <==> forall n | n in facts :: !facts[n].List?
  {
    if fact :| fact in facts && facts[fact].List? {
      ListFactsDiverge(facts, functions, fact);
      var rs := [MembershipRule(fact)];
      assert AllCallFree(rs) && !Reproduces(rs, facts, functions);
    } else {
      forall rs | AllCallFree(rs) ensures Reproduces(rs, facts, functions) {
        StorableReproduces(rs, facts, functions);
      }
    }
  }
}
