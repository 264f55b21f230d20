/** How many transactions a velocity threshold lets through, and what an outage
    does to it: the decision path, the windows and the store taken together. */
module Admission {
  import opened Values
  import opened Syntax
  import opened Interpretation
  import opened Velocity
  import opened VelocityRuns
  import opened VelocityThresholds
  import opened Functions
  import opened Evaluation
  import opened Handler

  /** `velocity_count(window='w') > t`. */
  function ThresholdTree(window: string, t: nat): Expr {
    Compare(Call(Name("velocity_count"), [], [Keyword(Some("window"), Const(Text(window)))]),
            [Link(Gt, Const(Int(t)))])
  }

  /** An active rule that blocks past the threshold. */
  predicate BlocksPast(r: CompiledRule, window: string, t: nat) {
    r.tree == ThresholdTree(window, t) && r.severity == Block && r.state == Active
  }

  lemma {:induction false} WindowCall(p: Provider, window: string)
    requires window in WINDOW_SECONDS
    ensures VelocityCall(p, true, [], [("window", Text(window))])
         == if p.Unavailable? then RuleErr(VelocityUnavailable)
            else
              var n := Count(p.window, WINDOW_SECONDS[window], NO_FILTER);
              if n.IsFailure() then n.PropagateFailure() else Val(Int(n.v))
  {
    var kw: Kwargs := [("window", Text(window))];
    var none: map<string, Value> := map[];
    assert kw[..|kw| - 1] == [];
    assert BindKeywords(kw) == map["window" := Text(window)];
    assert BindPositional(VELOCITY_PARAMS, []) == none && none + BindKeywords(kw) == BindKeywords(kw);
    assert VELOCITY_PARAMS[0] == "window";
  }

  lemma {:induction false} OneKeyword(name: string, v: Value, c: Context, max: nat, n: nat)
    requires n + 1 <= max
    ensures RunKeywords([Keyword(Some(name), Const(v))], c, max, n).out == Val([(name, v)])
    ensures RunKeywords([Keyword(Some(name), Const(v))], c, max, n).steps == n + 1
  {
    var ks := [Keyword(Some(name), Const(v))];
    assert ks[1..] == [];
    assert Run(ks[0].value, c, max, n).out == Val(v);
    assert RunKeywords(ks[1..], c, max, n + 1).out == Val([]);
    assert [(name, v)] + [] == [(name, v)];
  }

  lemma {:induction false} OneComparison(l: int, t: int, c: Context, max: nat, n: nat)
    requires n + 1 <= max
    ensures RunLinks(Int(l), [Link(Gt, Const(Int(t)))], c, max, n).out == Val(Bool(l > t))
  {
    var links := [Link(Gt, Const(Int(t)))];
    assert links[1..] == [];
    assert Run(links[0].operand, c, max, n).out == Val(Int(t));
    assert ApplyCompare(Gt, Int(l), Int(t)) == Val(l > t);
  }

  lemma {:induction false} ThresholdCall(p: Provider, facts: Facts, clock: Clock, window: string)
    ensures var run := Run(Call(Name("velocity_count"), [], [Keyword(Some("window"), Const(Text(window)))]),
                           Context(facts, Build(p, clock)), MAX_STEPS, 1);
            run.out == VelocityCall(p, true, [], [("window", Text(window))]) && run.steps == 3
  {
    OneKeyword("window", Text(window), Context(facts, Build(p, clock)), MAX_STEPS, 2);
  }

  lemma {:induction false} ThresholdRuns(p: Provider, facts: Facts, clock: Clock, window: string, t: nat)
    requires window in WINDOW_SECONDS
    ensures p.Unavailable? ==>
              Run(ThresholdTree(window, t), Context(facts, Build(p, clock)), MAX_STEPS, 0).out
              == RuleErr(VelocityUnavailable)
    ensures p.Live? && Count(p.window, WINDOW_SECONDS[window], NO_FILTER).Val? ==>
              Run(ThresholdTree(window, t), Context(facts, Build(p, clock)), MAX_STEPS, 0).out
              == Val(Bool(Count(p.window, WINDOW_SECONDS[window], NO_FILTER).v > t))
  {
    var c := Context(facts, Build(p, clock));
    WindowCall(p, window);
    ThresholdCall(p, facts, clock, window);
    var l := Run(ThresholdTree(window, t).left, c, MAX_STEPS, 1);
    if l.out.Val? {
      OneComparison(l.out.v.n, t, c, MAX_STEPS, l.steps);
    }
  }

  lemma {:induction false} OneRule(r: CompiledRule, c: Context, fallback: Policy)
    requires r.state == Active && r.severity == Block && !Run(r.tree, c, MAX_STEPS, 0).out.HostErr?
    ensures Decide(RuleSet([r]), c, fallback, MAX_STEPS).Decided?
    ensures Decide(RuleSet([r]), c, fallback, MAX_STEPS).d.outcome == Blocked <==> Fires(r, c, fallback, MAX_STEPS)
  {
    var rs := [r];
    EscapesIff(rs, c, fallback, MAX_STEPS);
    SelectExactly(rs, IsActive());
    SelectExactly(rs, IsShadow());
    BlockedIff(rs, c, fallback, MAX_STEPS);
  }

  predicate LetThrough(d: Decided) {
    d.Decided? && d.d.outcome != Blocked
  }

  lemma {:induction false} FiringBlocks(rs: seq<CompiledRule>, r: CompiledRule, c: Context, fallback: Policy)
    requires UniqueIds(rs) && r in rs && r.state == Active && r.severity == Block && Fires(r, c, fallback, MAX_STEPS)
    ensures !LetThrough(Decide(RuleSet(rs), c, fallback, MAX_STEPS))
  {
    if Decide(RuleSet(rs), c, fallback, MAX_STEPS).Decided? {
      BlockedIff(rs, c, fallback, MAX_STEPS);
    }
  }

  lemma {:induction false} ThresholdFires(r: CompiledRule, p: Provider, facts: Facts, clock: Clock, window: string,
                                          t: nat, fallback: Policy)
    requires window in WINDOW_SECONDS && BlocksPast(r, window, t)
    requires p.Live? ==> Count(p.window, WINDOW_SECONDS[window], NO_FILTER).Val?
    ensures var c := Context(facts, Build(p, clock));
            && !Run(r.tree, c, MAX_STEPS, 0).out.HostErr?
            && (Fires(r, c, fallback, MAX_STEPS)
                <==> if p.Live? then Count(p.window, WINDOW_SECONDS[window], NO_FILTER).v > t
                     else FailsClosed(fallback, Block))
  {
    ThresholdRuns(p, facts, clock, window, t);
  }

  lemma {:induction false} ThresholdDecides(rs: seq<CompiledRule>, r: CompiledRule, p: Provider, facts: Facts,
                                            clock: Clock, window: string, t: nat, fallback: Policy)
    requires window in WINDOW_SECONDS && BlocksPast(r, window, t) && UniqueIds(rs) && r in rs
    requires p.Live? && Count(p.window, WINDOW_SECONDS[window], NO_FILTER).Val?
    ensures var n := Count(p.window, WINDOW_SECONDS[window], NO_FILTER).v;
            var d := Decide(RuleSet(rs), Context(facts, Build(p, clock)), fallback, MAX_STEPS);
            if n > t then !LetThrough(d) else rs == [r] ==> LetThrough(d)
  {
    var c := Context(facts, Build(p, clock));
    ThresholdFires(r, p, facts, clock, window, t, fallback);
    if Fires(r, c, fallback, MAX_STEPS) {
      FiringBlocks(rs, r, c, fallback);
    } else {
      OneRule(r, c, fallback);
    }
  }

  // ------------------------------------------------------------- the outage

  predicate IsBlocked(d: Decided) {
    d.Decided? && d.d.outcome == Blocked
  }

  predicate BlockLost(rs: seq<CompiledRule>, t: Transaction, w: Window, lists: Lists, clock: Clock, fallback: Policy) {
    && IsBlocked(DecisionWith(rs, t, Live(w), lists, clock, fallback))
    && !IsBlocked(DecisionWith(rs, t, Unavailable, lists, clock, fallback))
  }

  /** Whatever would have been blocked with the store up is blocked with it down. */
  ghost predicate BlocksSurvive(fallback: Policy) {
    forall rs, t, w, lists, clock | Accepted(t) && UniqueIds(rs) :: !BlockLost(rs, t, w, lists, clock, fallback)
  }

  const SOLE_ENTRY := Window(0, [Entry("t", 0, 1, "")], false, Aggregates(1, 1, 0, Some(0), Some(0)))

  /** A tenant that fails open on blocks loses one the moment a velocity rule is
      what would have blocked. */
  lemma {:induction false} FailingOpenLosesBlocks(r: CompiledRule, t: Transaction, clock: Clock, fallback: Policy)
    requires BlocksPast(r, "1h", 0) && !FailsClosed(fallback, Block)
    ensures BlockLost([r], t, SOLE_ENTRY, [], clock, fallback)
  {
    assert SOLE_ENTRY.entries[1..] == [];
    assert Count(SOLE_ENTRY, 3_600, NO_FILTER) == Val(1);
    ThresholdFires(r, Live(SOLE_ENTRY), FactsFor(t, Live(SOLE_ENTRY), []), clock, "1h", 0, fallback);
    ThresholdFires(r, Unavailable, FactsFor(t, Unavailable, []), clock, "1h", 0, fallback);
    OneRule(r, ContextFor(t, Live(SOLE_ENTRY), [], clock), fallback);
    OneRule(r, ContextFor(t, Unavailable, [], clock), fallback);
  }

  /** Over all rule sets and transactions, an outage keeps every block exactly when
      the tenant's policy fails closed for blocks, as the default one does. */
  lemma {:induction false} BlocksSurviveIff(fallback: Policy)
    ensures BlocksSurvive(fallback) <==> FailsClosed(fallback, Block)
    ensures BlocksSurvive(map[])
  {
    PolicyKeepsBlocks(map[]);
    if FailsClosed(fallback, Block) {
      PolicyKeepsBlocks(fallback);
    } else {
      PolicyLosesBlocks(fallback);
    }
  }

  lemma {:induction false} PolicyLosesBlocks(fallback: Policy)
    requires !FailsClosed(fallback, Block)
    ensures !BlocksSurvive(fallback)
  {
    var r := CompiledRule("r", "r", ThresholdTree("1h", 0), Block, Active, 0, "", "");
    var t := Transaction("t", 1, "NGN", "", "", [], [], []);
    LostOnce(r, t, Clock(0, _ => None), fallback);
  }

  lemma {:induction false} LostOnce(r: CompiledRule, t: Transaction, clock: Clock, fallback: Policy)
    requires BlocksPast(r, "1h", 0) && !FailsClosed(fallback, Block) && Accepted(t)
    ensures !BlocksSurvive(fallback)
  {
    FailingOpenLosesBlocks(r, t, clock, fallback);
    assert UniqueIds([r]);
  }

  lemma {:induction false} PolicyKeepsBlocks(fallback: Policy)
    requires FailsClosed(fallback, Block)
    ensures BlocksSurvive(fallback)
  {
    forall rs, t, w, lists, clock | Accepted(t) && UniqueIds(rs)
      ensures !BlockLost(rs, t, w, lists, clock, fallback)
    {
      if IsBlocked(DecisionWith(rs, t, Live(w), lists, clock, fallback)) {
        StoreOutage(rs, t, w, lists, clock, fallback);
      }
    }
  }

  // ----------------------------------------------------------- the threshold

  /** A request, in the order the service takes them, with the clocks it brings and
      the fate of its round trip to the store. */
  datatype Arrival = Arrival(t: Transaction, server: int, now: int, clock: Clock, trip: Trip)

  /** The fetches the store performs: a request that never reaches it leaves no trace. */
  function Fetches(arrivals: seq<Arrival>): seq<Fetch> {
    if arrivals == [] then []
    else
      var last := arrivals[|arrivals| - 1];
      Fetches(arrivals[..|arrivals| - 1])
      + (if last.trip == RequestLost then [] else [FetchOf(last.t, last.server, last.now)])
  }

  /** What the last of these requests is decided with, the store having seen `before`. */
  function LastProvider(before: seq<Fetch>, arrivals: seq<Arrival>): Provider
    requires arrivals != []
  {
    if arrivals[|arrivals| - 1].trip == Answered
    then Live(View(KeysAfter(before + Fetches(arrivals)), arrivals[|arrivals| - 1].now)) else Unavailable
  }

  /** The decision the last of these requests gets. */
  function LastDecision(rs: seq<CompiledRule>, before: seq<Fetch>, arrivals: seq<Arrival>, lists: Lists,
                        fallback: Policy): Decided
    requires arrivals != []
  {
    var last := arrivals[|arrivals| - 1];
    DecisionWith(rs, last.t, LastProvider(before, arrivals), lists, last.clock, fallback)
  }

  type Passing = seq<Arrival> -> bool

  /** Whether the last of these requests is let through. */
  function PassesLast(rs: seq<CompiledRule>, before: seq<Fetch>, lists: Lists, fallback: Policy): Passing {
    (arrivals: seq<Arrival>) => arrivals != [] && LetThrough(LastDecision(rs, before, arrivals, lists, fallback))
  }

  function Tally(pass: Passing, arrivals: seq<Arrival>): nat {
    if arrivals == [] then 0 else Tally(pass, arrivals[..|arrivals| - 1]) + (if pass(arrivals) then 1 else 0)
  }

  /** How many of these requests were let through. */
  function Admitted(rs: seq<CompiledRule>, before: seq<Fetch>, arrivals: seq<Arrival>, lists: Lists,
                    fallback: Policy): nat
  {
    Tally(PassesLast(rs, before, lists, fallback), arrivals)
  }

  predicate AllAnswered(arrivals: seq<Arrival>) {
    forall i | 0 <= i < |arrivals| :: arrivals[i].trip == Answered
  }

  /** The requests that reach the store are a burst, and find the window empty. */
  ghost predicate BurstFromEmpty(before: seq<Fetch>, arrivals: seq<Arrival>, seconds: int) {
    && Burst(Fetches(arrivals), seconds)
    && forall f | f in Fetches(arrivals) :: WindowEmpty(KeysAfter(before), f.now, seconds)
  }

  lemma {:induction false} FetchesCount(arrivals: seq<Arrival>)
    ensures |Fetches(arrivals)| <= |arrivals|
    ensures AllAnswered(arrivals) ==> |Fetches(arrivals)| == |arrivals|
  {
    if arrivals != [] {
      FetchesCount(arrivals[..|arrivals| - 1]);
    }
  }

  lemma {:induction false} FetchesPrefix(arrivals: seq<Arrival>, n: nat)
    requires n <= |arrivals|
    ensures Fetches(arrivals[..n]) <= Fetches(arrivals)
  {
    if n < |arrivals| {
      FetchesPrefix(arrivals[..|arrivals| - 1], n);
      assert arrivals[..|arrivals| - 1][..n] == arrivals[..n];
    } else {
      assert arrivals[..n] == arrivals;
    }
  }

  lemma {:induction false} EarlierBurst(before: seq<Fetch>, arrivals: seq<Arrival>, seconds: int, n: nat)
    requires BurstFromEmpty(before, arrivals, seconds) && n <= |arrivals|
    ensures BurstFromEmpty(before, arrivals[..n], seconds)
  {
    var all, some := Fetches(arrivals), Fetches(arrivals[..n]);
    FetchesPrefix(arrivals, n);
    assert some == all[..|some|];
    BurstPrefix(all, seconds, |some|);
  }

  /** The last request passes only if it is answered and within the first `t` fetches;
      and, where that is asked, whenever it is. */
  predicate Fair(pass: Passing, arrivals: seq<Arrival>, t: nat, exact: bool) {
    && arrivals != []
    && (pass(arrivals) ==> arrivals[|arrivals| - 1].trip == Answered && |Fetches(arrivals)| <= t)
    && (exact ==> arrivals[|arrivals| - 1].trip == Answered && (|Fetches(arrivals)| <= t ==> pass(arrivals)))
  }

  lemma {:induction false} TallyBound(pass: Passing, arrivals: seq<Arrival>, t: nat, exact: bool)
    requires forall n | 0 < n <= |arrivals| :: Fair(pass, arrivals[..n], t, exact)
    ensures Tally(pass, arrivals) <= Min(|Fetches(arrivals)|, t)
    ensures exact ==> Tally(pass, arrivals) == Min(|Fetches(arrivals)|, t)
  {
    if arrivals != [] {
      var earlier := arrivals[..|arrivals| - 1];
      assert arrivals[..|arrivals|] == arrivals && Fair(pass, arrivals[..|arrivals|], t, exact);
      forall n | 0 < n <= |earlier| ensures Fair(pass, earlier[..n], t, exact) {
        assert earlier[..n] == arrivals[..n];
      }
      TallyBound(pass, earlier, t, exact);
    }
  }

  lemma {:induction false} LastCount(before: seq<Fetch>, arrivals: seq<Arrival>, seconds: int)
    requires arrivals != [] && arrivals[|arrivals| - 1].trip == Answered
    requires BurstFromEmpty(before, arrivals, seconds) && seconds <= LARGEST_WINDOW
    ensures Count(LastProvider(before, arrivals).window, seconds, NO_FILTER)
         == Val(Min(|Fetches(arrivals)|, MAX_MEMBERS_FETCHED))
  {
    var burst := Fetches(arrivals);
    BurstCounts(before, burst, seconds);
    assert (before + burst)[|before + burst| - 1] == burst[|burst| - 1];
  }

  lemma {:induction false} AnsweredDecision(rs: seq<CompiledRule>, r: CompiledRule, before: seq<Fetch>,
                                            arrivals: seq<Arrival>, window: string, t: nat, lists: Lists,
                                            fallback: Policy)
    requires window in WINDOW_SECONDS && t < MAX_MEMBERS_FETCHED && BlocksPast(r, window, t)
    requires UniqueIds(rs) && r in rs && arrivals != [] && arrivals[|arrivals| - 1].trip == Answered
    requires BurstFromEmpty(before, arrivals, WINDOW_SECONDS[window])
    ensures var d := LastDecision(rs, before, arrivals, lists, fallback);
            if |Fetches(arrivals)| > t then !LetThrough(d) else rs == [r] ==> LetThrough(d)
  {
    LastCount(before, arrivals, WINDOW_SECONDS[window]);
    var last, w := arrivals[|arrivals| - 1], LastProvider(before, arrivals).window;
    ThresholdDecision(rs, r, last, w, window, t, lists, fallback);
  }

  lemma {:induction false} ThresholdDecision(rs: seq<CompiledRule>, r: CompiledRule, a: Arrival, w: Window,
                                             window: string, t: nat, lists: Lists, fallback: Policy)
    requires window in WINDOW_SECONDS && BlocksPast(r, window, t) && UniqueIds(rs) && r in rs
    requires Count(w, WINDOW_SECONDS[window], NO_FILTER).Val?
    ensures var n := Count(w, WINDOW_SECONDS[window], NO_FILTER).v;
            var d := DecisionWith(rs, a.t, Live(w), lists, a.clock, fallback);
            if n > t then !LetThrough(d) else rs == [r] ==> LetThrough(d)
  {
    ThresholdDecides(rs, r, Live(w), FactsFor(a.t, Live(w), lists), a.clock, window, t, fallback);
  }

  /** A request whose trip failed is not let through when blocks fail closed. */
  lemma {:induction false} LostDecision(rs: seq<CompiledRule>, r: CompiledRule, before: seq<Fetch>,
                                        arrivals: seq<Arrival>, window: string, t: nat, lists: Lists, fallback: Policy)
    requires window in WINDOW_SECONDS && BlocksPast(r, window, t) && UniqueIds(rs) && r in rs
    requires arrivals != [] && arrivals[|arrivals| - 1].trip != Answered && FailsClosed(fallback, Block)
    ensures !LetThrough(LastDecision(rs, before, arrivals, lists, fallback))
  {
    var last := arrivals[|arrivals| - 1];
    var facts := FactsFor(last.t, Unavailable, lists);
    ThresholdFires(r, Unavailable, facts, last.clock, window, t, fallback);
    FiringBlocks(rs, r, Context(facts, Build(Unavailable, last.clock)), fallback);
  }

  lemma {:induction false} DecisionFair(rs: seq<CompiledRule>, r: CompiledRule, before: seq<Fetch>,
                                        arrivals: seq<Arrival>, window: string, t: nat, lists: Lists, fallback: Policy)
    requires window in WINDOW_SECONDS && t < MAX_MEMBERS_FETCHED && BlocksPast(r, window, t)
    requires UniqueIds(rs) && r in rs && arrivals != [] && BurstFromEmpty(before, arrivals, WINDOW_SECONDS[window])
    requires arrivals[|arrivals| - 1].trip == Answered || FailsClosed(fallback, Block)
    ensures Fair(PassesLast(rs, before, lists, fallback), arrivals, t,
                 rs == [r] && arrivals[|arrivals| - 1].trip == Answered)
  {
    if arrivals[|arrivals| - 1].trip == Answered {
      AnsweredDecision(rs, r, before, arrivals, window, t, lists, fallback);
    } else {
      LostDecision(rs, r, before, arrivals, window, t, lists, fallback);
    }
  }

  /** From an empty window, whatever the customer did before it, a rule that blocks past
      a threshold below 5,000 lets at most that many of a burst through, whatever other
      rules there are and in whatever order the requests reach the store; on its own it
      lets through exactly the smaller of the two numbers. With blocks failing closed,
      it lets no more through whichever trips to the store are lost on either way. */
  lemma {:induction false} ThresholdExact(rs: seq<CompiledRule>, r: CompiledRule, before: seq<Fetch>,
                                          arrivals: seq<Arrival>, window: string, t: nat, lists: Lists,
                                          fallback: Policy)
    requires window in WINDOW_SECONDS && t < MAX_MEMBERS_FETCHED && BlocksPast(r, window, t)
    requires UniqueIds(rs) && r in rs && BurstFromEmpty(before, arrivals, WINDOW_SECONDS[window])
    ensures AllAnswered(arrivals) || FailsClosed(fallback, Block) ==>
              Admitted(rs, before, arrivals, lists, fallback) <= Min(|arrivals|, t)
    ensures AllAnswered(arrivals) && rs == [r] ==>
              Admitted(rs, before, arrivals, lists, fallback) == Min(|arrivals|, t)
  {
    FetchesCount(arrivals);
    if AllAnswered(arrivals) || FailsClosed(fallback, Block) {
      var pass, exact := PassesLast(rs, before, lists, fallback), AllAnswered(arrivals) && rs == [r];
      forall n | 0 < n <= |arrivals| ensures Fair(pass, arrivals[..n], t, exact) {
        EarlierBurst(before, arrivals, WINDOW_SECONDS[window], n);
        assert arrivals[..n][n - 1] == arrivals[n - 1];
        DecisionFair(rs, r, before, arrivals[..n], window, t, lists, fallback);
      }
      TallyBound(pass, arrivals, t, exact);
    }
  }

  /** A customer never seen before has an empty window at every clock. */
  lemma {:induction false} NewCustomerIsEmpty(now: int, seconds: int)
    ensures WindowEmpty(KeysAfter([]), now, seconds)
  {
    assert View(EMPTY, now).entries == [];
  }
}
