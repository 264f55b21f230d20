/** How the rules of a set, each evaluated on one transaction, make one answer. */
module Evaluation {
  import opened Values
  import opened Syntax
  import opened Interpretation
  import opened Sorting
  import Validator
  import Soundness

  datatype Severity = Block | Flag | AllowWithNote
  datatype Answer = Allow | Flagged | Blocked
  datatype RuleState = Draft | Shadow | Active | Archived

  datatype CompiledRule = CompiledRule(id: string, name: string, tree: Expr, severity: Severity, state: RuleState,
                                       priority: int, reference: string, message: string)

  datatype RuleOutcome = RuleOutcome(rule: CompiledRule, matched: bool, error: Option<EvalError>, steps: nat)

  datatype Decision = Decision(outcome: Answer, matchedRules: seq<CompiledRule>, shadowMatches: seq<CompiledRule>,
                               erroredRules: seq<RuleOutcome>, evaluated: nat, degraded: bool,
                               reason: string, message: string, steps: nat)

  /** A decision, or a host exception that no rule's error handling caught. */
  datatype Decided = Decided(d: Decision) | Escaped

  type Policy = map<Severity, string>

  const DEFAULT_FALLBACK: Policy := map[Block := "closed", Flag := "open", AllowWithNote := "open"]

  predicate FailsClosed(fallback: Policy, s: Severity) {
    var policy := DEFAULT_FALLBACK + fallback;
    s in policy && policy[s] == "closed"
  }

  // ---------------------------------------------------------------- rule order

  predicate RuleBefore(a: CompiledRule, b: CompiledRule) {
    a.priority < b.priority || (a.priority == b.priority && TextLess(a.id, b.id))
  }

  ghost predicate UniqueIds(rs: seq<CompiledRule>) {
    forall i, j | 0 <= i < |rs| && 0 <= j < |rs| && rs[i].id == rs[j].id :: i == j
  }

  /** A rule set holds its rules sorted, however they were given. */
  function RuleSet(rs: seq<CompiledRule>): seq<CompiledRule> {
    Sort(RuleBefore, rs)
  }

  function Select(rs: seq<CompiledRule>, p: CompiledRule -> bool): seq<CompiledRule> {
    if rs == [] then [] else (if p(rs[0]) then [rs[0]] else []) + Select(rs[1..], p)
  }

  function IsActive(): CompiledRule -> bool {
    (r: CompiledRule) => r.state == Active
  }

  function IsShadow(): CompiledRule -> bool {
    (r: CompiledRule) => r.state == Shadow
  }

  // ----------------------------------------------------------------- deciding

  /** `_evaluate_one`; a host exception is not among the errors it catches. */
  function EvaluateOne(r: CompiledRule, c: Context, max: nat): Option<RuleOutcome> {
    var run := Run(r.tree, c, max, 0);
    match run.out
    case Val(v) => Some(RuleOutcome(r, Truthy(v), None, run.steps))
    case RuleErr(e) => Some(RuleOutcome(r, false, Some(e), run.steps))
    case HostErr => None
  }

  function EvaluateEach(rs: seq<CompiledRule>, c: Context, max: nat): Option<seq<RuleOutcome>> {
    if rs == [] then Some([])
    else
      var first, rest := EvaluateOne(rs[0], c, max), EvaluateEach(rs[1..], c, max);
      if first.None? || rest.None? then None else Some([first.value] + rest.value)
  }

  function Matched(os: seq<RuleOutcome>): seq<CompiledRule> {
    if os == [] then [] else (if os[0].matched then [os[0].rule] else []) + Matched(os[1..])
  }

  function FailedClosed(os: seq<RuleOutcome>, fallback: Policy): seq<CompiledRule> {
    if os == [] then []
    else
      (if os[0].error.Some? && FailsClosed(fallback, os[0].rule.severity) then [os[0].rule] else [])
      + FailedClosed(os[1..], fallback)
  }

  function Errored(os: seq<RuleOutcome>): seq<RuleOutcome> {
    if os == [] then [] else (if os[0].error.Some? then [os[0]] else []) + Errored(os[1..])
  }

  /** A dictionary keyed by id, listed in insertion order: a repeated id keeps its
      place and takes the later rule. */
  function ById(rs: seq<CompiledRule>): seq<CompiledRule> {
    if rs == [] then [] else Assign(ById(rs[..|rs| - 1]), rs[|rs| - 1])
  }

  function Assign(dict: seq<CompiledRule>, r: CompiledRule): seq<CompiledRule> {
    if dict == [] then [r]
    else if dict[0].id == r.id then [r] + dict[1..]
    else [dict[0]] + Assign(dict[1..], r)
  }

  function Combine(rs: seq<CompiledRule>): Answer {
    if exists r | r in rs :: r.severity == Block then Blocked
    else if exists r | r in rs :: r.severity == Flag then Flagged
    else Allow
  }

  function AnswerOf(s: Severity): Answer {
    match s case Block => Blocked case Flag => Flagged case AllowWithNote => Allow
  }

  function DecidingRule(rs: seq<CompiledRule>, outcome: Answer): Option<CompiledRule> {
    if rs == [] then None
    else if AnswerOf(rs[0].severity) == outcome then Some(rs[0])
    else DecidingRule(rs[1..], outcome)
  }

  function TotalSteps(os: seq<RuleOutcome>): nat {
    if os == [] then 0 else os[0].steps + TotalSteps(os[1..])
  }

  function Deciding(live: seq<RuleOutcome>, fallback: Policy): seq<CompiledRule> {
    Sort(RuleBefore, ById(Matched(live) + FailedClosed(live, fallback)))
  }

  function Decide(rules: seq<CompiledRule>, c: Context, fallback: Policy, max: nat): Decided {
    var live := EvaluateEach(Select(rules, IsActive()), c, max);
    var shadow := EvaluateEach(Select(rules, IsShadow()), c, max);
    if live.None? || shadow.None? then Escaped
    else
      var deciding := Deciding(live.value, fallback);
      var outcome := Combine(deciding);
      var rule := DecidingRule(deciding, outcome);
      Decided(Decision(outcome, deciding, Matched(shadow.value), Errored(live.value + shadow.value),
                       |live.value| + |shadow.value|, Errored(live.value + shadow.value) != [],
                       if rule.Some? then rule.value.name else "",
                       if outcome == Blocked && rule.Some? then rule.value.message else "",
                       TotalSteps(live.value + shadow.value)))
  }

  // ------------------------------------------------------- order independence

  lemma {:induction false} RuleBeforeStrict()
    ensures StrictOrder(RuleBefore)
  {
    forall x ensures !RuleBefore(x, x) {
      TextLessIrreflexive(x.id);
    }
    forall x, y, z | RuleBefore(x, y) && RuleBefore(y, z) ensures RuleBefore(x, z) {
      if x.priority == y.priority == z.priority {
        TextLessTransitive(x.id, y.id, z.id);
      }
    }
  }

  lemma {:induction false} UniqueIsComparable(rs: seq<CompiledRule>)
    requires UniqueIds(rs)
    ensures Comparable(RuleBefore, rs) && forall r | r in rs :: multiset(rs)[r] == 1
  {
    forall x, y | x in rs && y in rs && x != y ensures RuleBefore(x, y) || RuleBefore(y, x) {
      var i, j :| 0 <= i < |rs| && 0 <= j < |rs| && rs[i] == x && rs[j] == y;
      TextLessTotal(x.id, y.id);
    }
    forall r | r in rs ensures multiset(rs)[r] == 1 {
      OccursOnce(rs, r);
    }
  }

  lemma {:induction false} OccursOnce(rs: seq<CompiledRule>, r: CompiledRule)
    requires UniqueIds(rs) && r in rs
    ensures multiset(rs)[r] == 1
  {
    var i :| 0 <= i < |rs| && rs[i] == r;
    var before, after := rs[..i], rs[i + 1..];
    assert rs == before + [r] + after;
    assert r !in before && r !in after;
    assert multiset(rs) == multiset(before) + multiset{r} + multiset(after);
  }

  /** A rule set of rules with unique ids is the same for every order of the rules,
      and so is every decision made with it. */
  lemma {:induction false} DecisionIgnoresOrder(a: seq<CompiledRule>, b: seq<CompiledRule>, c: Context,
                                                fallback: Policy, max: nat)
    requires UniqueIds(a) && multiset(a) == multiset(b)
    ensures Decide(RuleSet(a), c, fallback, max) == Decide(RuleSet(b), c, fallback, max)
  {
    RuleBeforeStrict();
    UniqueIsComparable(a);
    SortCanonical(RuleBefore, a, b);
  }

  // --------------------------------------------------- what decides, exactly

  /** A live rule counts when it matched, or could not run and fails closed. */
  predicate Fires(r: CompiledRule, c: Context, fallback: Policy, max: nat) {
    var o := EvaluateOne(r, c, max);
    o.Some? && (o.value.matched || (o.value.error.Some? && FailsClosed(fallback, r.severity)))
  }

  function FiresIn(c: Context, fallback: Policy, max: nat): CompiledRule -> bool {
    (r: CompiledRule) => Fires(r, c, fallback, max)
  }

  lemma {:induction false} SelectExactly(rs: seq<CompiledRule>, p: CompiledRule -> bool)
    ensures forall r :: r in Select(rs, p) <==> r in rs && p(r)
    ensures Ascending(RuleBefore, rs) ==> Ascending(RuleBefore, Select(rs, p))
  {
    if rs != [] {
      SelectExactly(rs[1..], p);
      assert if p(rs[0]) then Select(rs, p)[1..] == Select(rs[1..], p) else Select(rs, p) == Select(rs[1..], p);
    }
  }

  lemma {:induction false} SelectMultiset(rs: seq<CompiledRule>, p: CompiledRule -> bool, r: CompiledRule)
    ensures multiset(Select(rs, p))[r] == (if p(r) then multiset(rs)[r] else 0)
  {
    if rs != [] {
      SelectMultiset(rs[1..], p, r);
      assert rs == [rs[0]] + rs[1..];
    }
  }

  lemma {:induction false} SelectOfPermutation(a: seq<CompiledRule>, b: seq<CompiledRule>, p: CompiledRule -> bool)
    requires multiset(a) == multiset(b)
    ensures multiset(Select(a, p)) == multiset(Select(b, p))
  {
    forall r ensures multiset(Select(a, p))[r] == multiset(Select(b, p))[r] {
      SelectMultiset(a, p, r);
      SelectMultiset(b, p, r);
    }
  }

  lemma {:induction false} AssignNew(dict: seq<CompiledRule>, r: CompiledRule)
    requires forall x | x in dict :: x.id != r.id
    ensures Assign(dict, r) == dict + [r]
  {
    if dict != [] {
      AssignNew(dict[1..], r);
    }
  }

  lemma {:induction false} ByIdOfDistinct(rs: seq<CompiledRule>)
    requires UniqueIds(rs)
    ensures ById(rs) == rs
  {
    if rs != [] {
      var shorter := rs[..|rs| - 1];
      ByIdOfDistinct(shorter);
      forall x | x in shorter ensures x.id != rs[|rs| - 1].id {
        var i :| 0 <= i < |shorter| && shorter[i] == x;
        assert rs[i] == x;
      }
      AssignNew(shorter, rs[|rs| - 1]);
    }
  }

  function Once(p: bool, r: CompiledRule): seq<CompiledRule> {
    if p then [r] else []
  }

  lemma {:induction false} OnceCounts(p: bool, q: bool, x: CompiledRule, a: seq<CompiledRule>, b: seq<CompiledRule>)
    requires !(p && q)
    ensures multiset(Once(p, x) + a + (Once(q, x) + b)) == multiset(Once(p || q, x)) + multiset(a + b)
  {
    assert multiset(Once(p, x) + a + (Once(q, x) + b))
        == multiset(Once(p, x)) + multiset(a) + multiset(Once(q, x)) + multiset(b);
    assert multiset(a + b) == multiset(a) + multiset(b);
  }

  predicate Counts(o: RuleOutcome, fallback: Policy) {
    o.matched || (o.error.Some? && FailsClosed(fallback, o.rule.severity))
  }

  function Counted(os: seq<RuleOutcome>, fallback: Policy): seq<CompiledRule> {
    if os == [] then [] else Once(Counts(os[0], fallback), os[0].rule) + Counted(os[1..], fallback)
  }

  /** A rule either matched or failed, never both. */
  lemma {:induction false} MatchedOrFailed(os: seq<RuleOutcome>, fallback: Policy)
    requires forall o | o in os :: !(o.matched && o.error.Some?)
    ensures multiset(Matched(os) + FailedClosed(os, fallback)) == multiset(Counted(os, fallback))
  {
    if os != [] {
      var o, rest := os[0], os[1..];
      MatchedOrFailed(rest, fallback);
      var failed := o.error.Some? && FailsClosed(fallback, o.rule.severity);
      assert o in os;
      OnceCounts(o.matched, failed, o.rule, Matched(rest), FailedClosed(rest, fallback));
      assert Matched(os) == Once(o.matched, o.rule) + Matched(rest);
      assert FailedClosed(os, fallback) == Once(failed, o.rule) + FailedClosed(rest, fallback);
    }
  }

  lemma {:induction false} CountedIsFired(rs: seq<CompiledRule>, c: Context, fallback: Policy, max: nat)
    requires EvaluateEach(rs, c, max).Some?
    ensures Counted(EvaluateEach(rs, c, max).value, fallback) == Select(rs, FiresIn(c, fallback, max))
    ensures forall o | o in EvaluateEach(rs, c, max).value :: !(o.matched && o.error.Some?)
  {
    if rs != [] {
      CountedIsFired(rs[1..], c, fallback, max);
      var live := EvaluateEach(rs, c, max).value;
      assert live[1..] == EvaluateEach(rs[1..], c, max).value;
      assert live == [live[0]] + live[1..];
      assert Counts(live[0], fallback) == FiresIn(c, fallback, max)(rs[0]) && live[0].rule == rs[0];
    }
  }

  /** The rules a decision lists are exactly the live rules that fire, in order. */
  lemma {:induction false} DecidingExactly(rs: seq<CompiledRule>, c: Context, fallback: Policy, max: nat)
    requires Ascending(RuleBefore, rs) && UniqueIds(rs) && EvaluateEach(rs, c, max).Some?
    ensures Deciding(EvaluateEach(rs, c, max).value, fallback) == Select(rs, FiresIn(c, fallback, max))
  {
    var live := EvaluateEach(rs, c, max).value;
    var counted, fired := Matched(live) + FailedClosed(live, fallback), Select(rs, FiresIn(c, fallback, max));
    CountedIsFired(rs, c, fallback, max);
    MatchedOrFailed(live, fallback);
    SelectExactly(rs, FiresIn(c, fallback, max));
    RuleBeforeStrict();
    SelectDistinct(rs, FiresIn(c, fallback, max));
    PermutationDistinct(fired, counted);
    ByIdOfDistinct(counted);
    SortsTo(counted, fired);
  }

  lemma {:induction false} SelectDistinct(rs: seq<CompiledRule>, p: CompiledRule -> bool)
    requires UniqueIds(rs)
    ensures UniqueIds(Select(rs, p))
  {
    if rs != [] {
      assert UniqueIds(rs[1..]);
      SelectDistinct(rs[1..], p);
      SelectExactly(rs[1..], p);
      var rest := Select(rs[1..], p);
      forall x | x in rest ensures x.id != rs[0].id {
        var k :| 0 <= k < |rs[1..]| && rs[1..][k] == x;
        assert rs[k + 1] == x;
      }
    }
  }

  lemma {:induction false} PermutationDistinct(a: seq<CompiledRule>, b: seq<CompiledRule>)
    requires UniqueIds(a) && multiset(a) == multiset(b)
    ensures UniqueIds(b)
  {
    MembersOf(a, b);
    forall i, j | 0 <= i < |b| && 0 <= j < |b| && b[i].id == b[j].id ensures i == j {
      var x, y := b[i], b[j];
      assert x in a && y in a;
      var k, l :| 0 <= k < |a| && 0 <= l < |a| && a[k] == x && a[l] == y;
      assert x == y;
      OccursOnce(a, x);
      if i != j {
        TwiceCounts(b, i, j);
      }
    }
  }

  lemma {:induction false} TwiceCounts(b: seq<CompiledRule>, i: nat, j: nat)
    requires i < |b| && j < |b| && i != j && b[i] == b[j]
    ensures multiset(b)[b[i]] >= 2
  {
    var lo, hi := if i < j then i else j, if i < j then j else i;
    assert b == b[..lo] + [b[lo]] + b[lo + 1..hi] + [b[hi]] + b[hi + 1..];
    assert multiset(b)
        == multiset(b[..lo]) + multiset{b[lo]} + multiset(b[lo + 1..hi]) + multiset{b[hi]} + multiset(b[hi + 1..]);
  }

  lemma {:induction false} SortsTo(a: seq<CompiledRule>, b: seq<CompiledRule>)
    requires UniqueIds(a) && multiset(a) == multiset(b) && Ascending(RuleBefore, b)
    ensures Sort(RuleBefore, a) == b
  {
    RuleBeforeStrict();
    UniqueIsComparable(a);
    SortAscends(RuleBefore, a);
    SortKeeps(RuleBefore, a);
    AscendingUnique(RuleBefore, Sort(RuleBefore, a), b);
  }

  // ------------------------------------------------- shadow rules do not decide

  lemma {:induction false} EachFailsIff(rs: seq<CompiledRule>, c: Context, max: nat)
    ensures EvaluateEach(rs, c, max).None? <==> exists r | r in rs :: EvaluateOne(r, c, max).None?
  {
    if rs != [] {
      EachFailsIff(rs[1..], c, max);
    }
  }

  ghost predicate SomeFaults(rs: seq<CompiledRule>, c: Context, max: nat) {
    exists r | r in rs :: EvaluateOne(r, c, max).None?
  }

  /** The live part of a rule set depends on the live rules alone. */
  lemma {:induction false} LivePart(a: seq<CompiledRule>, b: seq<CompiledRule>, p: CompiledRule -> bool)
    requires UniqueIds(a) && UniqueIds(b) && multiset(Select(a, p)) == multiset(Select(b, p))
    ensures Select(RuleSet(a), p) == Select(RuleSet(b), p)
  {
    RuleBeforeStrict();
    UniqueIsComparable(a);
    UniqueIsComparable(b);
    SortAscends(RuleBefore, a);
    SortAscends(RuleBefore, b);
    SortKeeps(RuleBefore, a);
    SortKeeps(RuleBefore, b);
    SelectExactly(RuleSet(a), p);
    SelectExactly(RuleSet(b), p);
    SelectOfPermutation(RuleSet(a), a, p);
    SelectOfPermutation(RuleSet(b), b, p);
    AscendingUnique(RuleBefore, Select(RuleSet(a), p), Select(RuleSet(b), p));
  }

  /** The same answer, rules, reason and customer message. */
  predicate SameAnswer(a: Decided, b: Decided) {
    if a.Escaped? || b.Escaped? then a == b
    else
      && a.d.outcome == b.d.outcome && a.d.matchedRules == b.d.matchedRules
      && a.d.reason == b.d.reason && a.d.message == b.d.message
  }

  lemma {:induction false} SelectSorted(rs: seq<CompiledRule>, p: CompiledRule -> bool)
    requires UniqueIds(rs)
    ensures forall r :: r in Select(RuleSet(rs), p) <==> r in rs && p(r)
  {
    SortKeeps(RuleBefore, rs);
    MembersOf(RuleSet(rs), rs);
    SelectExactly(RuleSet(rs), p);
  }

  lemma {:induction false} EscapesIff(rs: seq<CompiledRule>, c: Context, fallback: Policy, max: nat)
    requires UniqueIds(rs)
    ensures Decide(RuleSet(rs), c, fallback, max).Escaped?
       <==> SomeFaults(Select(rs, IsActive()), c, max) || SomeFaults(Select(rs, IsShadow()), c, max)
  {
    SelectSorted(rs, IsActive());
    SelectSorted(rs, IsShadow());
    SelectExactly(rs, IsActive());
    SelectExactly(rs, IsShadow());
    EachFailsIff(Select(RuleSet(rs), IsActive()), c, max);
    EachFailsIff(Select(RuleSet(rs), IsShadow()), c, max);
  }

  /** Adding, removing or changing shadow rules leaves the answer alone exactly as
      long as none of them raises a host exception; a rule evaluation error in one
      never matters, even under fail-closed. */
  lemma {:induction false} ShadowRulesInvisibleIff(rs: seq<CompiledRule>, live: seq<CompiledRule>, c: Context,
                                                   fallback: Policy, max: nat)
    requires UniqueIds(rs) && UniqueIds(live) && live == Select(rs, IsActive())
    requires Decide(RuleSet(live), c, fallback, max).Decided?
    ensures SameAnswer(Decide(RuleSet(rs), c, fallback, max), Decide(RuleSet(live), c, fallback, max))
       <==> !SomeFaults(Select(rs, IsShadow()), c, max)
  {
    SelectIdempotent(rs, IsActive());
    LivePart(rs, live, IsActive());
    EscapesIff(rs, c, fallback, max);
    EscapesIff(live, c, fallback, max);
  }

  lemma {:induction false} SelectIdempotent(rs: seq<CompiledRule>, p: CompiledRule -> bool)
    ensures Select(Select(rs, p), p) == Select(rs, p)
  {
    if rs != [] {
      SelectIdempotent(rs[1..], p);
      assert p(rs[0]) ==> Select(rs, p)[1..] == Select(rs[1..], p);
      assert !p(rs[0]) ==> Select(rs, p) == Select(rs[1..], p);
    }
  }

  /** Two rule sets that differ only in shadow rules, none of which faults, decide alike. */
  lemma {:induction false} ShadowRulesIrrelevant(a: seq<CompiledRule>, b: seq<CompiledRule>, c: Context,
                                                 fallback: Policy, max: nat)
    requires UniqueIds(a) && UniqueIds(b) && multiset(Select(a, IsActive())) == multiset(Select(b, IsActive()))
    requires !SomeFaults(Select(a, IsShadow()), c, max) && !SomeFaults(Select(b, IsShadow()), c, max)
    ensures SameAnswer(Decide(RuleSet(a), c, fallback, max), Decide(RuleSet(b), c, fallback, max))
  {
    LivePart(a, b, IsActive());
    EscapesIff(a, c, fallback, max);
    EscapesIff(b, c, fallback, max);
    EachFailsIff(Select(RuleSet(a), IsActive()), c, max);
    SelectSorted(a, IsActive());
    SelectSorted(b, IsActive());
    SelectExactly(a, IsActive());
    SelectExactly(b, IsActive());
  }

  /** A shadow rule that looks for a number in text passes the validator, and takes
      the whole decision down. */
  lemma {:induction false} FaultingShadowRule(c: Context)
    requires "country" in c.facts && c.facts["country"].Text?
    ensures var r := CompiledRule("r", "r", Soundness.NUMBER_IN_TEXT, Flag, Shadow, 0, "", "");
            && Validator.Validate(r.tree) == Validator.Pass
            && Decide(RuleSet([r]), c, map[], MAX_STEPS).Escaped? && Decide(RuleSet([]), c, map[], MAX_STEPS).Decided?
  {
    var r := CompiledRule("r", "r", Soundness.NUMBER_IN_TEXT, Flag, Shadow, 0, "", "");
    Soundness.NumberInText(c);
    BudgetUnreachable(r.tree, c);
    var rs := [r];
    EscapesIff(rs, c, map[], MAX_STEPS);
    SelectExactly(rs, IsShadow());
    assert r in Select(rs, IsShadow()) && EvaluateOne(r, c, MAX_STEPS).None?;
  }

  /** Each answer, in terms of the rules that fire. */
  lemma {:induction false} AnswerIff(rs: seq<CompiledRule>, c: Context, fallback: Policy, max: nat)
    requires UniqueIds(rs) && Decide(RuleSet(rs), c, fallback, max).Decided?
    ensures var d := Decide(RuleSet(rs), c, fallback, max).d;
            && (forall r :: r in d.matchedRules <==> r in rs && r.state == Active && Fires(r, c, fallback, max))
            && Ascending(RuleBefore, d.matchedRules)
            && d.outcome == Combine(d.matchedRules)
  {
    var live := Select(RuleSet(rs), IsActive());
    ActiveInOrder(rs);
    DecidingExactly(live, c, fallback, max);
    SelectExactly(live, FiresIn(c, fallback, max));
  }

  lemma {:induction false} ActiveInOrder(rs: seq<CompiledRule>)
    requires UniqueIds(rs)
    ensures var live := Select(RuleSet(rs), IsActive());
            && Ascending(RuleBefore, live) && UniqueIds(live)
            && forall r :: r in live <==> r in rs && r.state == Active
  {
    RuleBeforeStrict();
    UniqueIsComparable(rs);
    SortAscends(RuleBefore, rs);
    SortKeeps(RuleBefore, rs);
    PermutationDistinct(rs, RuleSet(rs));
    SelectSorted(rs, IsActive());
    SelectExactly(RuleSet(rs), IsActive());
    SelectDistinct(RuleSet(rs), IsActive());
  }

  ghost predicate BlockFires(rs: seq<CompiledRule>, c: Context, fallback: Policy, max: nat) {
    exists r | r in rs :: r.state == Active && r.severity == Block && Fires(r, c, fallback, max)
  }

  lemma {:induction false} BlockedIff(rs: seq<CompiledRule>, c: Context, fallback: Policy, max: nat)
    requires UniqueIds(rs) && Decide(RuleSet(rs), c, fallback, max).Decided?
    ensures Decide(RuleSet(rs), c, fallback, max).d.outcome == Blocked <==> BlockFires(rs, c, fallback, max)
  {
    AnswerIff(rs, c, fallback, max);
    CombineBlocks(rs, Decide(RuleSet(rs), c, fallback, max).d.matchedRules,
                  (r: CompiledRule) => r.state == Active && Fires(r, c, fallback, max));
  }

  lemma {:induction false} CombineBlocks(rs: seq<CompiledRule>, matched: seq<CompiledRule>, p: CompiledRule -> bool)
    requires forall r :: r in matched <==> r in rs && p(r)
    ensures Combine(matched) == Blocked <==> exists r | r in rs :: r.severity == Block && p(r)
  {
  }
}
