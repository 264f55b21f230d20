/** What each function a rule can call gives back. */
module FunctionResults {
  import opened Values
  import opened Arithmetic
  import opened Interpretation
  import opened Velocity
  import opened Functions
  import opened Semantics

  // ------------------------------------------------------------------ keywords

  ghost predicate Distinct(kw: Kwargs) {
    forall i, j | 0 <= i < j < |kw| :: kw[i].0 != kw[j].0
  }

  lemma {:induction false} KeywordsAre(kw: Kwargs, name: string)
    requires Distinct(kw)
    ensures name in BindKeywords(kw) ==> (name, BindKeywords(kw)[name]) in kw
    ensures forall v | (name, v) in kw :: name in BindKeywords(kw) && BindKeywords(kw)[name] == v
  {
    if kw != [] {
      var earlier, last := kw[..|kw| - 1], kw[|kw| - 1];
      assert kw == earlier + [last];
      KeywordsAre(earlier, name);
      forall v | (name, v) in earlier ensures last.0 != name {
        var i :| 0 <= i < |earlier| && kw[i] == (name, v);
      }
    }
  }

  // ------------------------------------------------------------------- windows

  /** The eight windows, in minutes, hours and days. */
  predicate Lasts(name: string, seconds: int) {
    || (name == "1m" && seconds == 60) || (name == "5m" && seconds == 5 * 60) || (name == "15m" && seconds == 15 * 60)
    || (name == "1h" && seconds == 60 * 60) || (name == "6h" && seconds == 6 * 60 * 60)
    || (name == "24h" && seconds == 24 * 60 * 60) || (name == "7d" && seconds == 7 * 24 * 60 * 60)
    || (name == "30d" && seconds == 30 * 24 * 60 * 60)
  }

  lemma {:induction false} WindowsLast(v: Value, seconds: int)
    ensures WindowSeconds(v) == Val(seconds) <==> v.Text? && Lasts(v.s, seconds)
    ensures !WindowSeconds(v).Val? ==> WindowSeconds(v) == RuleErr(NotAWindow)
  {
  }

  /** The entry is inside the window and meets every filter that is given. */
  ghost predicate Included(w: Window, e: Entry, seconds: int, kw: Kwargs) {
    && w.now - seconds <= e.score
    && (forall v | ("min_amount_minor", v) in kw :: Numeric(v).Some? && Numeric(v).value <= e.amount)
    && (forall v | ("max_amount_minor", v) in kw :: Numeric(v).Some? && e.amount <= Numeric(v).value)
    && forall v | ("transaction_type", v) in kw :: v == Text(e.kind)
  }

  ghost predicate BoundsAreNumbers(kw: Kwargs) {
    && (forall v | ("min_amount_minor", v) in kw :: Numeric(v).Some?)
    && forall v | ("max_amount_minor", v) in kw :: Numeric(v).Some?
  }

  /** How many of the entries are meant. */
  function HowMany(es: seq<Entry>, p: Entry -> bool): nat {
    if es == [] then 0
    else HowMany(es[..|es| - 1], p) + if p(es[|es| - 1]) then 1 else 0
  }

  /** What they come to. */
  function Amount(es: seq<Entry>, p: Entry -> bool): int {
    if es == [] then 0
    else Amount(es[..|es| - 1], p) + if p(es[|es| - 1]) then es[|es| - 1].amount else 0
  }

  lemma {:induction false} OneMore(e: Entry, es: seq<Entry>, p: Entry -> bool)
    ensures HowMany([e] + es, p) == HowMany(es, p) + if p(e) then 1 else 0
    ensures Amount([e] + es, p) == Amount(es, p) + if p(e) then e.amount else 0
  {
    var all := [e] + es;
    if es == [] {
      assert all == [e] && all[..0] == [];
    } else {
      OneMore(e, es[..|es| - 1], p);
      assert all[..|all| - 1] == [e] + es[..|es| - 1];
    }
  }

  lemma {:induction false} MatchingIs(es: seq<Entry>, cutoff: int, f: Filter, p: Entry -> bool)
    requires WellTyped(f)
    requires forall e :: p(e) <==> e.score >= cutoff && WithinBounds(e.amount, f) == Val(true) && OfKind(e.kind, f)
    ensures Matching(es, cutoff, f).Val? && |Matching(es, cutoff, f).v| == HowMany(es, p)
    ensures Sum(Matching(es, cutoff, f).v) == Amount(es, p)
  {
    if es != [] {
      MatchingIs(es[1..], cutoff, f, p);
      assert es == [es[0]] + es[1..];
      OneMore(es[0], es[1..], p);
      MatchingMore(es, cutoff, f, p(es[0]));
    }
  }

  lemma {:induction false} MatchingMore(es: seq<Entry>, cutoff: int, f: Filter, passes: bool)
    requires es != [] && WellTyped(f) && Matching(es[1..], cutoff, f).Val?
    requires passes
        <==> es[0].score >= cutoff && WithinBounds(es[0].amount, f) == Val(true) && OfKind(es[0].kind, f)
    ensures var rest := Matching(es[1..], cutoff, f).v;
            Matching(es, cutoff, f) == Val(if passes then [es[0].amount] + rest else rest)
  {
  }

  lemma {:induction false} FilterIs(kw: Kwargs, w: Window, e: Entry, seconds: int)
    requires Distinct(kw) && BoundsAreNumbers(kw)
    ensures var f := FilterOf(BindKeywords(kw));
            && WellTyped(f)
            && (Included(w, e, seconds, kw)
                <==> e.score >= w.now - seconds && WithinBounds(e.amount, f) == Val(true) && OfKind(e.kind, f))
  {
    KeywordsAre(kw, "min_amount_minor");
    KeywordsAre(kw, "max_amount_minor");
    KeywordsAre(kw, "transaction_type");
  }

  lemma {:induction false} VelocityBinds(kw: Kwargs, v: Value)
    requires Distinct(kw) && ("window", v) in kw && forall i | i in kw :: i.0 in VELOCITY_KEYWORDS
    ensures "window" in BindKeywords(kw) && BindKeywords(kw)["window"] == v
    ensures Bind(VELOCITY_PARAMS, {"window"}, [], kw) == Val(BindKeywords(kw))
  {
    KeywordsAre(kw, "window");
    var named := BindKeywords(kw);
    var empty: map<string, Value> := map[];
    assert BindPositional(VELOCITY_PARAMS, []) == empty && empty + named == named;
    forall k | k in named ensures k in VELOCITY_PARAMS {
      KeywordsAre(kw, k);
      assert (k, named[k]) in kw;
      assert VELOCITY_PARAMS[0] == "window" && VELOCITY_PARAMS[1] == "min_amount_minor"
          && VELOCITY_PARAMS[2] == "max_amount_minor" && VELOCITY_PARAMS[3] == "transaction_type";
    }
  }

  lemma {:induction false} BoundCallIs(w: Window, kw: Kwargs, bound: map<string, Value>, seconds: int, p: Entry -> bool)
    requires "window" in bound && Bind(VELOCITY_PARAMS, {"window"}, [], kw) == Val(bound)
    requires WindowSeconds(bound["window"]) == Val(seconds) && WellTyped(FilterOf(bound))
    requires forall e ::
               p(e)
               <==> && e.score >= w.now - seconds && WithinBounds(e.amount, FilterOf(bound)) == Val(true)
                    && OfKind(e.kind, FilterOf(bound))
    ensures VelocityCall(Live(w), true, [], kw) == Val(Int(HowMany(w.entries, p)))
    ensures VelocityCall(Live(w), false, [], kw) == Val(Int(Amount(w.entries, p)))
  {
    MatchingIs(w.entries, w.now - seconds, FilterOf(bound), p);
  }

  lemma {:induction false} VelocityEntries(p: Provider, clock: Clock, kw: Kwargs)
    ensures Build(p, clock)["velocity_count"]([], kw) == VelocityCall(p, true, [], kw)
    ensures Build(p, clock)["velocity_sum"]([], kw) == VelocityCall(p, false, [], kw)
  {
  }

  lemma {:induction false} VelocityCallIs(w: Window, kw: Kwargs, name: string, seconds: int, p: Entry -> bool)
    requires Distinct(kw) && BoundsAreNumbers(kw) && forall i | i in kw :: i.0 in VELOCITY_KEYWORDS
    requires ("window", Text(name)) in kw && Lasts(name, seconds)
    requires forall e :: p(e) <==> Included(w, e, seconds, kw)
    ensures VelocityCall(Live(w), true, [], kw) == Val(Int(HowMany(w.entries, p)))
    ensures VelocityCall(Live(w), false, [], kw) == Val(Int(Amount(w.entries, p)))
  {
    VelocityBinds(kw, Text(name));
    WindowsLast(Text(name), seconds);
    var bound := BindKeywords(kw);
    forall e ensures p(e) <==> && e.score >= w.now - seconds && WithinBounds(e.amount, FilterOf(bound)) == Val(true)
                               && OfKind(e.kind, FilterOf(bound))
             ensures WellTyped(FilterOf(bound)) {
      FilterIs(kw, w, e, seconds);
    }
    FilterIs(kw, w, Entry("", 0, 0, ""), seconds);
    BoundCallIs(w, kw, bound, seconds, p);
  }

  /** A count is of the entries in the window that meet every filter given, and a sum is
      of their amounts. */
  lemma {:induction false} VelocityAnswers(w: Window, clock: Clock, kw: Kwargs, name: string, seconds: int,
                                           p: Entry -> bool)
    requires Distinct(kw) && BoundsAreNumbers(kw) && forall i | i in kw :: i.0 in VELOCITY_KEYWORDS
    requires ("window", Text(name)) in kw && Lasts(name, seconds)
    requires forall e :: p(e) <==> Included(w, e, seconds, kw)
    ensures Build(Live(w), clock)["velocity_count"]([], kw) == Val(Int(HowMany(w.entries, p)))
    ensures Build(Live(w), clock)["velocity_sum"]([], kw) == Val(Int(Amount(w.entries, p)))
  {
    VelocityEntries(Live(w), clock, kw);
    VelocityCallIs(w, kw, name, seconds, p);
  }

  /** A window by any other name is an error, and so is any window while there is no
      store. */
  lemma {:induction false} VelocityErrors(p: Provider, clock: Clock, kw: Kwargs, v: Value)
    requires Distinct(kw) && ("window", v) in kw && forall i | i in kw :: i.0 in VELOCITY_KEYWORDS
    ensures var count, sum := Build(p, clock)["velocity_count"]([], kw), Build(p, clock)["velocity_sum"]([], kw);
            && ((!v.Text? || forall seconds :: !Lasts(v.s, seconds)) ==>
                  count == RuleErr(NotAWindow) && sum == RuleErr(NotAWindow))
            && (v.Text? && (exists seconds :: Lasts(v.s, seconds)) && p.Unavailable? ==>
                  count == RuleErr(VelocityUnavailable) && sum == RuleErr(VelocityUnavailable))
  {
    VelocityBinds(kw, v);
    forall seconds ensures WindowSeconds(v) == Val(seconds) <==> v.Text? && Lasts(v.s, seconds) {
      WindowsLast(v, seconds);
    }
    WindowsLast(v, 0);
    if WindowSeconds(v).Val? {
      assert Lasts(v.s, WindowSeconds(v).v);
    }
  }

  // ------------------------------------------------------------------- numbers

  /** The distance from zero. */
  lemma {:induction false} AbsIs(p: Provider, clock: Clock, v: Value)
    ensures var r := Build(p, clock)["abs"]([v], []);
            if v.Int? then r.Val? && r.v.Int? && r.v.n >= 0 && (r.v.n == v.n || r.v.n == -v.n)
            else r == RuleErr(NotAWholeNumber)
  {
    BindOne("value", [v], []);
  }

  /** One of the two: not above either of them, or not below. */
  lemma {:induction false} MinMaxAre(p: Provider, clock: Clock, a: Value, b: Value)
    ensures var least, most := Build(p, clock)["min"]([a, b], []), Build(p, clock)["max"]([a, b], []);
            if a.Int? && b.Int? then
              && least.Val? && least.v.Int? && most.Val? && most.v.Int?
              && least.v.n in {a.n, b.n} && least.v.n <= a.n && least.v.n <= b.n
              && most.v.n in {a.n, b.n} && most.v.n >= a.n && most.v.n >= b.n
            else least == RuleErr(NotAWholeNumber) && most == RuleErr(NotAWholeNumber)
  {
    BindTwo("a", "b", [a, b], []);
  }

  /** A hundredth of the product, rounded down. */
  lemma {:induction false} PercentIs(p: Provider, clock: Clock, a: Value, b: Value)
    ensures var r := Build(p, clock)["percent_of"]([a, b], []);
            if a.Int? && b.Int? then r.Val? && r.v.Int? && 100 * r.v.n <= a.n * b.n < 100 * r.v.n + 100
            else r == RuleErr(NotAWholeNumber)
  {
    BindTwo("amount", "percent", [a, b], []);
    if a.Int? && b.Int? {
      FloorOfHundred(a.n * b.n);
    }
  }

  lemma {:induction false} FloorOfHundred(n: int)
    ensures 100 * PyFloorDiv(n, 100) <= n < 100 * PyFloorDiv(n, 100) + 100
  {
  }

  // --------------------------------------------------------- lists and the clock

  /** An equal element of a list, or a stretch of a text. */
  lemma {:induction false} InListIs(p: Provider, clock: Clock, v: Value, candidates: Value)
    ensures var r := Build(p, clock)["in_list"]([v, candidates], []);
            && (candidates.Tuple? ==>
                  r == Val(Bool(exists i | 0 <= i < |candidates.items| :: PyEq(v, candidates.items[i]))))
            && (candidates.Text? && v.Text? ==> r == Val(Bool(exists i :: OccursAt(v.s, candidates.s, i))))
            && (candidates.Text? && !v.Text? ==> r == HostErr)
            && (!candidates.Tuple? && !candidates.Text? ==> r == RuleErr(NeedsAList))
  {
    BindTwo("value", "candidates", [v, candidates], []);
    if v.Text? && candidates.Text? {
      SubstringIff(v.s, candidates.s);
    }
  }

  /** The clock's hour, and its whole days since a text that is a date. */
  lemma {:induction false} DatesAre(p: Provider, clock: Clock, v: Value)
    ensures Build(p, clock)["hour_of_day"]([], []) == Val(Int(clock.hour))
    ensures var r := Build(p, clock)["days_since"]([v], []);
            if !v.Text? then r == RuleErr(NeedsADate)
            else match clock.daysSince(v.s)
                 case None => r == RuleErr(NotADate)
                 case Some(days) => r == Val(Int(days))
  {
    BindOne("timestamp", [v], []);
    var nothing: map<string, Value> := map[];
    assert BindPositional([], []) + BindKeywords([]) == nothing;
  }
}
