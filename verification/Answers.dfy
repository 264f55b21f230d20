/** Everything a decision says, in terms of which rules fire: its outcome, its reason
    and message, the shadow matches, and how far it was degraded. */
module Answers {
  import opened Values
  import opened Interpretation
  import opened Sorting
  import opened Evaluation
  import opened Semantics

  // ------------------------------------------------------------ firing, spelled out

  predicate RanTrue(r: CompiledRule, c: Context, max: nat) {
    Run(r.tree, c, max, 0).out.Val? && Truthy(Run(r.tree, c, max, 0).out.v)
  }

  predicate RanIntoError(r: CompiledRule, c: Context, max: nat) {
    Run(r.tree, c, max, 0).out.RuleErr?
  }

  /** A severity fails closed if the tenant's policy says so, or says nothing of it and
      it is the blocking one. */
  lemma {:induction false} FailsClosedIff(fallback: Policy, s: Severity)
    ensures FailsClosed(fallback, s) <==> if s in fallback then fallback[s] == "closed" else s == Block
  {
  }

  lemma {:induction false} FiresIff(r: CompiledRule, c: Context, fallback: Policy, max: nat)
    ensures Fires(r, c, fallback, max)
       <==> RanTrue(r, c, max) || (RanIntoError(r, c, max) && FailsClosed(fallback, r.severity))
  {
  }

  /** Some active rule of this severity fires. */
  ghost predicate SomeFires(rs: seq<CompiledRule>, s: Severity, c: Context, fallback: Policy, max: nat) {
    exists r | r in rs :: r.state == Active && r.severity == s && Fires(r, c, fallback, max)
  }

  // -------------------------------------------------------------------- the outcome

  /** The most severe rule that fires decides: a block, else a flag, else neither. */
  lemma {:induction false} OutcomeIff(rs: seq<CompiledRule>, c: Context, fallback: Policy, max: nat)
    requires UniqueIds(rs) && Decide(RuleSet(rs), c, fallback, max).Decided?
    ensures var d := Decide(RuleSet(rs), c, fallback, max).d;
            var block, flag := SomeFires(rs, Block, c, fallback, max), SomeFires(rs, Flag, c, fallback, max);
            && (d.outcome == Blocked <==> block)
            && (d.outcome == Flagged <==> !block && flag)
            && (d.outcome == Allow <==> !block && !flag)
  {
    AnswerIff(rs, c, fallback, max);
    var p := (r: CompiledRule) => r.state == Active && Fires(r, c, fallback, max);
    CombineIs(rs, Decide(RuleSet(rs), c, fallback, max).d.matchedRules, p);
    HasIff(rs, p, Block);
    HasIff(rs, p, Flag);
    assert SomeFires(rs, Block, c, fallback, max) <==> Has(rs, p, Block);
    assert SomeFires(rs, Flag, c, fallback, max) <==> Has(rs, p, Flag);
  }

  ghost predicate Has(rs: seq<CompiledRule>, p: CompiledRule -> bool, s: Severity) {
    exists r | r in rs :: p(r) && r.severity == s
  }

  lemma {:induction false} HasIff(rs: seq<CompiledRule>, p: CompiledRule -> bool, s: Severity)
    ensures Has(rs, p, s) <==> exists r | r in rs :: r.severity == s && p(r)
  {
  }

  lemma {:induction false} CombineIs(rs: seq<CompiledRule>, matched: seq<CompiledRule>, p: CompiledRule -> bool)
    requires forall r :: r in matched <==> r in rs && p(r)
    ensures Combine(matched) == Blocked <==> Has(rs, p, Block)
    ensures Combine(matched) == Flagged <==> !Has(rs, p, Block) && Has(rs, p, Flag)
    ensures Combine(matched) == Allow <==> !Has(rs, p, Block) && !Has(rs, p, Flag)
  {
  }

  // --------------------------------------------------------- the reason and message

  predicate SeverityOf(outcome: Answer, s: Severity) {
    (outcome == Blocked && s == Block) || (outcome == Flagged && s == Flag) || (outcome == Allow && s == AllowWithNote)
  }

  /** An active rule that fires, of the severity of the outcome. */
  predicate Candidate(rs: seq<CompiledRule>, r: CompiledRule, outcome: Answer, c: Context, fallback: Policy, max: nat) {
    r in rs && r.state == Active && SeverityOf(outcome, r.severity) && Fires(r, c, fallback, max)
  }

  /** By priority, then by id. */
  ghost predicate Precedes(a: CompiledRule, b: CompiledRule) {
    a.priority < b.priority || (a.priority == b.priority && TextBefore(a.id, b.id))
  }

  lemma {:induction false} PrecedesIff(a: CompiledRule, b: CompiledRule)
    ensures Precedes(a, b) <==> RuleBefore(a, b)
  {
    TextLessIff(a.id, b.id);
  }

  lemma {:induction false} DecidingIs(matched: seq<CompiledRule>, outcome: Answer)
    requires Ascending(RuleBefore, matched)
    ensures DecidingRule(matched, outcome).None? ==> forall r | r in matched :: !SeverityOf(outcome, r.severity)
    ensures DecidingRule(matched, outcome).Some? ==>
              var r := DecidingRule(matched, outcome).value;
              && r in matched && SeverityOf(outcome, r.severity)
              && forall x | x in matched && x != r && SeverityOf(outcome, x.severity) :: Precedes(r, x)
  {
    if matched != [] {
      DecidingIs(matched[1..], outcome);
      forall x ensures Precedes(matched[0], x) <==> RuleBefore(matched[0], x) {
        PrecedesIff(matched[0], x);
      }
    }
  }

  /** The reason is the name of the first firing rule of the outcome's severity, by
      priority and id, and empty if there is none; the message is that rule's, and only
      a block carries one. */
  lemma {:induction false} ReasonIs(rs: seq<CompiledRule>, c: Context, fallback: Policy, max: nat)
    requires UniqueIds(rs) && Decide(RuleSet(rs), c, fallback, max).Decided?
    ensures var d := Decide(RuleSet(rs), c, fallback, max).d;
            if forall r :: !Candidate(rs, r, d.outcome, c, fallback, max) then d.reason == "" && d.message == ""
            else exists r :: Candidate(rs, r, d.outcome, c, fallback, max)
                   && (forall x | x != r && Candidate(rs, x, d.outcome, c, fallback, max) :: Precedes(r, x))
                   && d.reason == r.name && d.message == if d.outcome == Blocked then r.message else ""
  {
    var d := Decide(RuleSet(rs), c, fallback, max).d;
    AnswerIff(rs, c, fallback, max);
    DecidingIs(d.matchedRules, d.outcome);
    forall r ensures Candidate(rs, r, d.outcome, c, fallback, max)
                <==> r in d.matchedRules && SeverityOf(d.outcome, r.severity) {}
    ReasonOf(rs, c, fallback, max);
    var first := DecidingRule(d.matchedRules, d.outcome);
    if first.Some? {
      assert Candidate(rs, first.value, d.outcome, c, fallback, max);
    }
  }

  lemma {:induction false} ReasonOf(rs: seq<CompiledRule>, c: Context, fallback: Policy, max: nat)
    requires Decide(RuleSet(rs), c, fallback, max).Decided?
    ensures var d := Decide(RuleSet(rs), c, fallback, max).d;
            var first := DecidingRule(d.matchedRules, d.outcome);
            && d.reason == (if first.Some? then first.value.name else "")
            && d.message == (if first.Some? && d.outcome == Blocked then first.value.message else "")
  {
  }

  // ------------------------------------------------- shadow matches, errors and size

  lemma {:induction false} OutcomesAre(rs: seq<CompiledRule>, c: Context, max: nat)
    requires EvaluateEach(rs, c, max).Some?
    ensures var os := EvaluateEach(rs, c, max).value;
            && |os| == |rs|
            && (forall r :: r in Matched(os) <==> r in rs && RanTrue(r, c, max))
            && (forall o :: o in Errored(os) <==> o in os && o.error.Some?)
            && forall o | o in os :: o.rule in rs
                 && (o.error.Some? <==> RanIntoError(o.rule, c, max))
                 && (o.error.Some? ==> o.error.value == Run(o.rule.tree, c, max, 0).out.error)
  {
    if rs != [] {
      OutcomesAre(rs[1..], c, max);
      var os := EvaluateEach(rs, c, max).value;
      assert os[1..] == EvaluateEach(rs[1..], c, max).value;
    }
  }

  lemma {:induction false} EachIsThere(rs: seq<CompiledRule>, c: Context, max: nat, r: CompiledRule)
    requires EvaluateEach(rs, c, max).Some? && r in rs
    ensures exists o | o in EvaluateEach(rs, c, max).value :: o.rule == r
  {
    var os := EvaluateEach(rs, c, max).value;
    if r != rs[0] {
      EachIsThere(rs[1..], c, max, r);
      assert os[1..] == EvaluateEach(rs[1..], c, max).value;
    }
    assert os[0] in os && os[0].rule == rs[0];
  }

  predicate Listed(rs: seq<CompiledRule>, r: CompiledRule) {
    r in rs && (r.state == Active || r.state == Shadow)
  }

  /** The shadow matches are exactly the shadow rules that came out true. */
  lemma {:induction false} ShadowMatchesAre(rs: seq<CompiledRule>, c: Context, fallback: Policy, max: nat)
    requires UniqueIds(rs) && Decide(RuleSet(rs), c, fallback, max).Decided?
    ensures var d := Decide(RuleSet(rs), c, fallback, max).d;
            forall r :: r in d.shadowMatches <==> r in rs && r.state == Shadow && RanTrue(r, c, max)
  {
    SelectSorted(rs, IsShadow());
    OutcomesAre(Select(RuleSet(rs), IsShadow()), c, max);
  }

  lemma {:induction false} ErrorsOf(live: seq<CompiledRule>, shadow: seq<CompiledRule>, c: Context, max: nat)
    requires EvaluateEach(live, c, max).Some? && EvaluateEach(shadow, c, max).Some?
    ensures var errored := Errored(EvaluateEach(live, c, max).value + EvaluateEach(shadow, c, max).value);
            && (forall o | o in errored :: (o.rule in live || o.rule in shadow) && RanIntoError(o.rule, c, max)
                  && o.error == Some(Run(o.rule.tree, c, max, 0).out.error))
            && forall r | (r in live || r in shadow) && RanIntoError(r, c, max) ::
                 exists o | o in errored :: o.rule == r
  {
    var a, b := EvaluateEach(live, c, max).value, EvaluateEach(shadow, c, max).value;
    OutcomesAre(live, c, max);
    OutcomesAre(shadow, c, max);
    ErroredExactly(a + b);
    forall r | (r in live || r in shadow) && RanIntoError(r, c, max)
      ensures exists o | o in Errored(a + b) :: o.rule == r {
      if r in live {
        EachIsThere(live, c, max, r);
        var o :| o in a && o.rule == r;
        assert o in a + b;
      } else {
        EachIsThere(shadow, c, max, r);
        var o :| o in b && o.rule == r;
        assert o in a + b;
      }
    }
  }

  lemma {:induction false} ErroredExactly(os: seq<RuleOutcome>)
    ensures forall o :: o in Errored(os) <==> o in os && o.error.Some?
  {
    if os != [] {
      ErroredExactly(os[1..]);
    }
  }

  /** The errors listed are exactly those of the active and shadow rules, each with its
      own error, and a decision is degraded exactly if there is one. */
  lemma {:induction false} ErrorsAre(rs: seq<CompiledRule>, c: Context, fallback: Policy, max: nat)
    requires UniqueIds(rs) && Decide(RuleSet(rs), c, fallback, max).Decided?
    ensures var d := Decide(RuleSet(rs), c, fallback, max).d;
            && (d.degraded <==> exists r :: Listed(rs, r) && RanIntoError(r, c, max))
            && (forall o | o in d.erroredRules :: Listed(rs, o.rule) && o.error.Some?
                  && Run(o.rule.tree, c, max, 0).out == RuleErr(o.error.value))
            && forall r | Listed(rs, r) && RanIntoError(r, c, max) :: exists o | o in d.erroredRules :: o.rule == r
  {
    var live, shadow := Select(RuleSet(rs), IsActive()), Select(RuleSet(rs), IsShadow());
    SelectSorted(rs, IsActive());
    SelectSorted(rs, IsShadow());
    ErrorsOf(live, shadow, c, max);
    var d := Decide(RuleSet(rs), c, fallback, max).d;
    if d.erroredRules != [] {
      assert d.erroredRules[0] in d.erroredRules;
    }
  }

  function CountListed(rs: seq<CompiledRule>): nat {
    if rs == [] then 0
    else (if rs[0].state == Active || rs[0].state == Shadow then 1 else 0) + CountListed(rs[1..])
  }

  function StepsOf(rs: seq<CompiledRule>, c: Context, max: nat): nat {
    if rs == [] then 0 else Run(rs[0].tree, c, max, 0).steps + StepsOf(rs[1..], c, max)
  }

  lemma {:induction false} ListedSplit(rs: seq<CompiledRule>)
    ensures CountListed(rs) == |Select(rs, IsActive())| + |Select(rs, IsShadow())|
  {
    if rs != [] {
      ListedSplit(rs[1..]);
    }
  }

  lemma {:induction false} SelectSize(a: seq<CompiledRule>, b: seq<CompiledRule>, p: CompiledRule -> bool)
    requires multiset(a) == multiset(b)
    ensures |Select(a, p)| == |Select(b, p)|
  {
    SelectOfPermutation(a, b, p);
    MembersOf(Select(a, p), Select(b, p));
  }

  lemma {:induction false} StepsTotal(rs: seq<CompiledRule>, c: Context, max: nat)
    requires EvaluateEach(rs, c, max).Some?
    ensures |EvaluateEach(rs, c, max).value| == |rs|
    ensures TotalSteps(EvaluateEach(rs, c, max).value) == StepsOf(rs, c, max)
  {
    if rs != [] {
      StepsTotal(rs[1..], c, max);
      assert EvaluateEach(rs, c, max).value[1..] == EvaluateEach(rs[1..], c, max).value;
    }
  }

  lemma {:induction false} TotalAppends(a: seq<RuleOutcome>, b: seq<RuleOutcome>)
    ensures TotalSteps(a + b) == TotalSteps(a) + TotalSteps(b)
  {
    if a == [] {
      assert a + b == b;
    } else {
      TotalAppends(a[1..], b);
      assert (a + b)[1..] == a[1..] + b;
    }
  }

  /** Every active and every shadow rule is evaluated, once, and its steps are counted. */
  lemma {:induction false} EvaluatedIs(rs: seq<CompiledRule>, c: Context, fallback: Policy, max: nat)
    requires Decide(RuleSet(rs), c, fallback, max).Decided?
    ensures var d := Decide(RuleSet(rs), c, fallback, max).d;
            var active, shadow := Select(RuleSet(rs), IsActive()), Select(RuleSet(rs), IsShadow());
            d.evaluated == CountListed(rs) && d.steps == StepsOf(active, c, max) + StepsOf(shadow, c, max)
  {
    var active, shadow := Select(RuleSet(rs), IsActive()), Select(RuleSet(rs), IsShadow());
    SortKeeps(RuleBefore, rs);
    SelectSize(RuleSet(rs), rs, IsActive());
    SelectSize(RuleSet(rs), rs, IsShadow());
    ListedSplit(rs);
    StepsTotal(active, c, max);
    StepsTotal(shadow, c, max);
    TotalAppends(EvaluateEach(active, c, max).value, EvaluateEach(shadow, c, max).value);
  }
}
