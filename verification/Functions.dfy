/** What rules can call: the nine signatures, and their implementations for one
    transaction's velocity provider and clock. */
module Functions {
  import opened Values
  import opened Arithmetic
  import opened Interpretation
  import opened Velocity

  datatype Spec = Spec(positional: nat, keywords: set<string>)

  const VELOCITY_KEYWORDS := {"window", "min_amount_minor", "max_amount_minor", "transaction_type"}

  const SPECS: map<string, Spec> := map[
    "velocity_count" := Spec(0, VELOCITY_KEYWORDS),
    "velocity_sum" := Spec(0, VELOCITY_KEYWORDS),
    "days_since" := Spec(1, {}),
    "in_list" := Spec(2, {}),
    "hour_of_day" := Spec(0, {}),
    "abs" := Spec(1, {}),
    "min" := Spec(2, {}),
    "max" := Spec(2, {}),
    "percent_of" := Spec(2, {})
  ]

  const WINDOW_SECONDS: map<string, int> := map[
    "1m" := 60, "5m" := 300, "15m" := 900, "1h" := 3_600,
    "6h" := 21_600, "24h" := 86_400, "7d" := 604_800, "30d" := 2_592_000
  ]

  /** A fetched window, or the stand-in for one that could not be fetched. */
  datatype Provider = Live(window: Window) | Unavailable

  /** What the dates functions need of the calendar. */
  datatype Clock = Clock(hour: int, daysSince: string -> Option<int>)

  // ------------------------------------------------------- Python's call rules

  function BindPositional(params: seq<string>, args: seq<Value>): map<string, Value>
    requires |args| <= |params|
  {
    if args == [] then map[] else BindPositional(params[1..], args[1..])[params[0] := args[0]]
  }

  /** A keyword dictionary: a repeated name keeps its last value. */
  function BindKeywords(kw: Kwargs): map<string, Value> {
    if kw == [] then map[]
    else
      var last := kw[|kw| - 1];
      BindKeywords(kw[..|kw| - 1])[last.0 := last.1]
  }

  /** Arguments matched to parameters; every mismatch is a host TypeError. */
  function Bind(params: seq<string>, required: set<string>, args: seq<Value>, kw: Kwargs): Outcome<map<string, Value>> {
    if |args| > |params| then HostErr
    else
      var positional, named := BindPositional(params, args), BindKeywords(kw);
      if (exists k | k in named :: k !in params || k in positional) then HostErr
      else if !(required <= (positional + named).Keys) then HostErr
      else Val(positional + named)
  }

  function Get(m: map<string, Value>, k: string): Option<Value> {
    if k in m then Some(m[k]) else None
  }

  // ---------------------------------------------------------- implementations

  function WindowSeconds(v: Value): Outcome<int> {
    if v.Text? && v.s in WINDOW_SECONDS then Val(WINDOW_SECONDS[v.s]) else RuleErr(NotAWindow)
  }

  function WholeNumber(v: Value): Outcome<int> {
    if v.Int? then Val(v.n) else RuleErr(NotAWholeNumber)
  }

  const VELOCITY_PARAMS := ["window", "min_amount_minor", "max_amount_minor", "transaction_type"]

  function FilterOf(bound: map<string, Value>): Filter {
    Filter(Get(bound, "min_amount_minor"), Get(bound, "max_amount_minor"), Get(bound, "transaction_type"))
  }

  function VelocityCall(p: Provider, counting: bool, args: seq<Value>, kw: Kwargs): Outcome<Value> {
    var bound :- Bind(VELOCITY_PARAMS, {"window"}, args, kw);
    var seconds :- WindowSeconds(bound["window"]);
    if p.Unavailable? then RuleErr(VelocityUnavailable)
    else
      var f := FilterOf(bound);
      var n :- if counting then Count(p.window, seconds, f) else Total(p.window, seconds, f);
      Val(Int(n))
  }

  function DaysSince(clock: Clock, args: seq<Value>, kw: Kwargs): Outcome<Value> {
    var bound :- Bind(["timestamp"], {"timestamp"}, args, kw);
    var stamp := bound["timestamp"];
    if !stamp.Text? then RuleErr(NeedsADate)
    else if clock.daysSince(stamp.s).None? then RuleErr(NotADate)
    else Val(Int(clock.daysSince(stamp.s).value))
  }

  function InList(args: seq<Value>, kw: Kwargs): Outcome<Value> {
    var bound :- Bind(["value", "candidates"], {"value", "candidates"}, args, kw);
    var candidates := bound["candidates"];
    if !(candidates.Tuple? || candidates.Text?) then RuleErr(NeedsAList)
    else
      var found :- IsIn(bound["value"], candidates);
      Val(Bool(found))
  }

  function HourOfDay(clock: Clock, args: seq<Value>, kw: Kwargs): Outcome<Value> {
    var bound :- Bind([], {}, args, kw);
    Val(Int(clock.hour))
  }

  function AbsValue(args: seq<Value>, kw: Kwargs): Outcome<Value> {
    var bound :- Bind(["value"], {"value"}, args, kw);
    var n :- WholeNumber(bound["value"]);
    Val(Int(Abs(n)))
  }

  function Pick(smaller: bool, args: seq<Value>, kw: Kwargs): Outcome<Value> {
    var bound :- Bind(["a", "b"], {"a", "b"}, args, kw);
    var a :- WholeNumber(bound["a"]);
    var b :- WholeNumber(bound["b"]);
    Val(Int(if (a <= b) == smaller then a else b))
  }

  /** A whole percentage, rounded down. */
  function PercentOf(args: seq<Value>, kw: Kwargs): Outcome<Value> {
    var bound :- Bind(["amount", "percent"], {"amount", "percent"}, args, kw);
    var amount :- WholeNumber(bound["amount"]);
    var percent :- WholeNumber(bound["percent"]);
    Val(Int(PyFloorDiv(amount * percent, 100)))
  }

  function Build(p: Provider, clock: Clock): map<string, Function> {
    map[
      "velocity_count" := (args, kw) => VelocityCall(p, true, args, kw),
      "velocity_sum" := (args, kw) => VelocityCall(p, false, args, kw),
      "days_since" := (args, kw) => DaysSince(clock, args, kw),
      "in_list" := (args, kw) => InList(args, kw),
      "hour_of_day" := (args, kw) => HourOfDay(clock, args, kw),
      "abs" := (args, kw) => AbsValue(args, kw),
      "min" := (args, kw) => Pick(true, args, kw),
      "max" := (args, kw) => Pick(false, args, kw),
      "percent_of" := (args, kw) => PercentOf(args, kw)
    ]
  }

  // ------------------------------------------------- when a call is ill-formed

  /** In-window entries reach an amount bound that is not a number. */
  ghost predicate BoundUncomparable(w: Window, seconds: int, f: Filter) {
    exists e | e in w.entries :: e.score >= w.now - seconds && WithinBounds(e.amount, f).HostErr?
  }

  lemma {:induction false} MatchingFaultsIff(entries: seq<Entry>, cutoff: int, f: Filter)
    ensures !Matching(entries, cutoff, f).RuleErr?
    ensures Matching(entries, cutoff, f).HostErr?
       <==> exists e | e in entries :: e.score >= cutoff && WithinBounds(e.amount, f).HostErr?
  {
    if entries != [] {
      MatchingFaultsIff(entries[1..], cutoff, f);
    }
  }

  /** The shape `visit_Call` accepts, seen from the evaluated arguments. */
  predicate AcceptedShape(name: string, args: seq<Value>, kw: Kwargs) {
    && name in SPECS
    && |args| == SPECS[name].positional
    && BindKeywords(kw).Keys <= SPECS[name].keywords
  }

  /** The only ways a call of an accepted shape escapes as a host error. */
  ghost predicate CallFaults(p: Provider, name: string, args: seq<Value>, kw: Kwargs)
    requires AcceptedShape(name, args, kw)
  {
    if name == "in_list" then MembershipFaults(args[0], args[1])
    else if name == "velocity_count" || name == "velocity_sum" then
      var named := BindKeywords(kw);
      || "window" !in named
      || (p.Live? && WindowSeconds(named["window"]).Val?
          && BoundUncomparable(p.window, WindowSeconds(named["window"]).v, FilterOf(named)))
    else false
  }

  lemma {:induction false} VelocityFaultsIff(p: Provider, counting: bool, kw: Kwargs)
    requires BindKeywords(kw).Keys <= VELOCITY_KEYWORDS
    ensures VelocityCall(p, counting, [], kw).HostErr? <==> CallFaults(p, "velocity_count", [], kw)
  {
    var named := BindKeywords(kw);
    var empty: map<string, Value> := map[];
    assert BindPositional(VELOCITY_PARAMS, []) == empty && empty + named == named;
    forall k | k in named ensures k in VELOCITY_PARAMS {
      assert VELOCITY_PARAMS[0] == "window" && VELOCITY_PARAMS[1] == "min_amount_minor"
          && VELOCITY_PARAMS[2] == "max_amount_minor" && VELOCITY_PARAMS[3] == "transaction_type";
    }
    if p.Live? && "window" in named && WindowSeconds(named["window"]).Val? {
      MatchingFaultsIff(p.window.entries, p.window.now - WindowSeconds(named["window"]).v, FilterOf(named));
    }
  }

  lemma {:induction false} BindTwo(p: string, q: string, args: seq<Value>, kw: Kwargs)
    requires |args| == 2 && p != q && BindKeywords(kw) == map[]
    ensures Bind([p, q], {p, q}, args, kw) == Val(map[p := args[0], q := args[1]])
  {
    assert [p, q][1..] == [q] && args[1..] == [args[1]];
    assert BindPositional([q], [args[1]]) == map[q := args[1]];
    assert BindPositional([p, q], args) + BindKeywords(kw) == map[p := args[0], q := args[1]];
  }

  lemma {:induction false} BindOne(p: string, args: seq<Value>, kw: Kwargs)
    requires |args| == 1 && BindKeywords(kw) == map[]
    ensures Bind([p], {p}, args, kw) == Val(map[p := args[0]])
  {
    assert BindPositional([p], args) == map[p := args[0]];
    assert BindPositional([p], args) + BindKeywords(kw) == map[p := args[0]];
  }

  lemma {:induction false} InListFaultsIff(args: seq<Value>, kw: Kwargs)
    requires |args| == 2 && BindKeywords(kw) == map[]
    ensures InList(args, kw).HostErr? <==> MembershipFaults(args[0], args[1])
  {
    BindTwo("value", "candidates", args, kw);
  }

  lemma {:induction false} NumericNeverFaults(args: seq<Value>, kw: Kwargs)
    requires BindKeywords(kw) == map[]
    ensures |args| == 1 ==> !AbsValue(args, kw).HostErr?
    ensures |args| == 2 ==> !Pick(true, args, kw).HostErr? && !Pick(false, args, kw).HostErr?
    ensures |args| == 2 ==> !PercentOf(args, kw).HostErr?
  {
    if |args| == 1 {
      BindOne("value", args, kw);
    } else if |args| == 2 {
      BindTwo("a", "b", args, kw);
      BindTwo("amount", "percent", args, kw);
    }
  }

  lemma {:induction false} DatesNeverFault(clock: Clock, args: seq<Value>, kw: Kwargs)
    requires BindKeywords(kw) == map[]
    ensures |args| == 1 ==> !DaysSince(clock, args, kw).HostErr?
    ensures |args| == 0 ==> !HourOfDay(clock, args, kw).HostErr?
  {
    if |args| == 1 {
      BindOne("timestamp", args, kw);
    } else if |args| == 0 {
      assert BindPositional([], []) + BindKeywords(kw) == map[];
    }
  }

  /** A call of an accepted shape raises a host error exactly in those cases. */
  lemma {:induction false} CallFaultsIff(p: Provider, clock: Clock, name: string, args: seq<Value>, kw: Kwargs)
    requires AcceptedShape(name, args, kw)
    ensures name in Build(p, clock)
    ensures Build(p, clock)[name](args, kw).HostErr? <==> CallFaults(p, name, args, kw)
  {
    if name == "velocity_count" || name == "velocity_sum" {
      VelocityFaultsIff(p, name == "velocity_count", kw);
    } else {
      assert BindKeywords(kw) == map[];
      if name == "in_list" {
        InListFaultsIff(args, kw);
      } else if name == "days_since" || name == "hour_of_day" {
        DatesNeverFault(clock, args, kw);
      } else {
        NumericNeverFaults(args, kw);
      }
    }
  }

  // ------------------------------------------------------- the size of results

  /** `percent_of` has no guard of its own: its result stays within the
      interpreter's 512 bits exactly when the product lies in this range. */
  lemma {:induction false} PercentOfFitsIff(amount: int, percent: int)
    ensures Fits(PyFloorDiv(amount * percent, 100), MAX_RESULT_BITS)
       <==> 100 * (1 - Pow2(MAX_RESULT_BITS)) <= amount * percent < 100 * Pow2(MAX_RESULT_BITS)
  {
    FitsIffBelow(PyFloorDiv(amount * percent, 100), MAX_RESULT_BITS);
  }

  lemma {:induction false} AtLeastAHundredfold(a: nat, b: nat)
    requires a >= 128
    ensures a * b >= 100 * b
  {
    assert (a - 100) * b >= 0;
  }

  /** Two equal powers of two leave that range from 261 bits on, although each of
      them fits comfortably. */
  lemma {:induction false} PercentOfOverflows(n: nat)
    requires 260 <= n < MAX_RESULT_BITS
    ensures Fits(Pow2(n), MAX_RESULT_BITS)
    ensures !Fits(PyFloorDiv(Pow2(n) * Pow2(n), 100), MAX_RESULT_BITS)
  {
    var m := MAX_RESULT_BITS;
    FitsIffBelow(Pow2(n), m);
    Pow2Positive(n);
    Pow2Monotone(n + 1, m);
    PercentOfFitsIff(Pow2(n), Pow2(n));
    Pow2Sum(n, n);
    var spare := n + n - m;
    Pow2Sum(spare, m);
    Pow2Monotone(7, spare);
    assert Pow2(7) == 128;
    AtLeastAHundredfold(Pow2(spare), Pow2(m));
  }
}
