/** Evaluating a rule tree against one transaction.

    `Evaluate` is the meaning of a tree. `Run` is the same walk under the step
    budget, threading the counter the way the source threads `_steps`; the class
    `Interpreter` is the imperative walk itself and is proved against `Run`. */
module Interpretation {
  import opened Values
  import opened Syntax
  import opened Arithmetic

  type Kwargs = seq<(string, Value)>
  type Function = (seq<Value>, Kwargs) -> Outcome<Value>

  /** Everything a rule may see. */
  datatype Context = Context(facts: map<string, Value>, functions: map<string, Function>)

  // ---------------------------------------------------------------- operators

  function ApplyUnary(op: UnaryOperator, v: Value): Outcome<Value> {
    if op == Not then Val(Bool(!Truthy(v)))
    else if !IsNumber(v) then RuleErr(NotANumber)
    else Val(Int(-v.n))
  }

  /** The last branch of the source catches every operator not tested before it. */
  function CompareValues(op: CmpOperator, l: Value, r: Value): Outcome<bool> {
    match op
    case Eq => Val(PyEq(l, r))
    case NotEq => Val(!PyEq(l, r))
    case _ =>
      if !SameOrderableKind(l, r) then RuleErr(Uncomparable)
      else if op == Lt then Val(Less(l, r))
      else if op == LtE then Val(!Less(r, l))
      else if op == Gt then Val(Less(r, l))
      else Val(!Less(l, r))
  }

  function ApplyCompare(op: CmpOperator, l: Value, r: Value): Outcome<bool> {
    if op == In || op == NotIn then
      if !(r.Tuple? || r.Text?) then RuleErr(Uncomparable)
      else
        var found :- IsIn(l, r);
        Val(if op == In then found else !found)
    else CompareValues(op, l, r)
  }

  /** The number an arithmetic node computes before its magnitude is checked. */
  function RawArithmetic(op: BinOperator, l: int, r: int): Outcome<int> {
    match op
    case Add => Val(l + r)
    case Sub => Val(l - r)
    case Mult =>
      var bits := BitLength(l) + BitLength(r);
      if bits > MAX_RESULT_BITS then RuleErr(TooLarge(bits)) else Val(l * r)
    case FloorDiv => if r == 0 then RuleErr(DivideByZero) else Val(PyFloorDiv(l, r))
    case _ => if r == 0 then RuleErr(RemainderByZero) else Val(PyMod(l, r))
  }

  function ApplyBinary(op: BinOperator, l: Value, r: Value): Outcome<Value> {
    if !IsNumber(l) || !IsNumber(r) then RuleErr(NotANumber)
    else
      var result :- RawArithmetic(op, l.n, r.n);
      if BitLength(result) > MAX_RESULT_BITS then RuleErr(TooLarge(BitLength(result)))
      else Val(Int(result))
  }

  // ------------------------------------------------------------------ meaning

  function Evaluate(e: Expr, c: Context): Outcome<Value>
    decreases e
  {
    match e
    case Const(v) => Val(v)
    case Name(id) => if id in c.facts then Val(c.facts[id]) else RuleErr(UnknownFact(id))
    case BoolOp(op, values) => EvaluateBool(op, values, c)
    case UnaryOp(op, x) =>
      var v :- Evaluate(x, c);
      ApplyUnary(op, v)
    case Compare(left, links) =>
      var l :- Evaluate(left, c);
      EvaluateLinks(l, links, c)
    case BinOp(left, op, right) =>
      var l :- Evaluate(left, c);
      var r :- Evaluate(right, c);
      ApplyBinary(op, l, r)
    case Call(f, args, keywords) =>
      if !f.Name? then HostErr
      else if f.id !in c.functions then RuleErr(NotAvailable(f.id))
      else
        var xs :- EvaluateAll(args, c);
        var ks :- EvaluateKeywords(keywords, c);
        c.functions[f.id](xs, ks)
    case ListLit(elts) =>
      var xs :- EvaluateAll(elts, c);
      Val(Tuple(xs))
    case TupleLit(elts) =>
      var xs :- EvaluateAll(elts, c);
      Val(Tuple(xs))
    case Other(kind, _) => RuleErr(CannotEvaluate(kind))
  }

  function EvaluateBool(op: BoolOperator, es: seq<Expr>, c: Context): Outcome<Value>
    decreases es
  {
    if es == [] then Val(Bool(op == And))
    else
      var v :- Evaluate(es[0], c);
      if Truthy(v) == (op == Or) then Val(Bool(op == Or)) else EvaluateBool(op, es[1..], c)
  }

  function EvaluateLinks(l: Value, links: seq<Link>, c: Context): Outcome<Value>
    decreases links
  {
    if links == [] then Val(Bool(true))
    else
      assert (links decreases to links[0]);
      var r :- Evaluate(links[0].operand, c);
      var holds :- ApplyCompare(links[0].op, l, r);
      if !holds then Val(Bool(false)) else EvaluateLinks(r, links[1..], c)
  }

  function EvaluateAll(es: seq<Expr>, c: Context): Outcome<seq<Value>>
    decreases es
  {
    if es == [] then Val([])
    else
      var v :- Evaluate(es[0], c);
      var rest :- EvaluateAll(es[1..], c);
      Val([v] + rest)
  }

  /** `**mapping` keywords carry no name and are skipped unevaluated. */
  function EvaluateKeywords(ks: seq<Keyword>, c: Context): Outcome<Kwargs>
    decreases ks
  {
    if ks == [] then Val([])
    else if ks[0].arg.None? then EvaluateKeywords(ks[1..], c)
    else
      assert (ks decreases to ks[0]);
      var v :- Evaluate(ks[0].value, c);
      var rest :- EvaluateKeywords(ks[1..], c);
      Val([(ks[0].arg.value, v)] + rest)
  }

  function Truth(o: Outcome<Value>): Outcome<bool> {
    var v :- o;
    Val(Truthy(v))
  }

  /** Did the rule match? What `Interpreter.run` answers, budget aside. */
  function Matches(e: Expr, c: Context): Outcome<bool> {
    Truth(Evaluate(e, c))
  }

  // ------------------------------------------------------- the budgeted walk

  datatype Counted<+T> = Counted(out: Outcome<T>, steps: nat)

  function Run(e: Expr, c: Context, max: nat, before: nat): Counted<Value>
    decreases e
  {
    var n := before + 1;
    if n > max then Counted(RuleErr(StepBudget(max)), n)
    else
      match e
      case Const(v) => Counted(Val(v), n)
      case Name(id) =>
        Counted(if id in c.facts then Val(c.facts[id]) else RuleErr(UnknownFact(id)), n)
      case BoolOp(op, values) => RunBool(op, values, c, max, n)
      case UnaryOp(op, x) =>
        var v := Run(x, c, max, n);
        if v.out.IsFailure() then v else Counted(ApplyUnary(op, v.out.v), v.steps)
      case Compare(left, links) =>
        var l := Run(left, c, max, n);
        if l.out.IsFailure() then l else RunLinks(l.out.v, links, c, max, l.steps)
      case BinOp(left, op, right) =>
        var l := Run(left, c, max, n);
        if l.out.IsFailure() then l
        else
          var r := Run(right, c, max, l.steps);
          if r.out.IsFailure() then r else Counted(ApplyBinary(op, l.out.v, r.out.v), r.steps)
      case Call(f, args, keywords) =>
        if !f.Name? then Counted(HostErr, n)
        else if f.id !in c.functions then Counted(RuleErr(NotAvailable(f.id)), n)
        else
          var xs := RunAll(args, c, max, n);
          if xs.out.IsFailure() then Counted(xs.out.PropagateFailure(), xs.steps)
          else
            var ks := RunKeywords(keywords, c, max, xs.steps);
            if ks.out.IsFailure() then Counted(ks.out.PropagateFailure(), ks.steps)
            else Counted(c.functions[f.id](xs.out.v, ks.out.v), ks.steps)
      case ListLit(elts) => AsTuple(RunAll(elts, c, max, n))
      case TupleLit(elts) => AsTuple(RunAll(elts, c, max, n))
      case Other(kind, _) => Counted(RuleErr(CannotEvaluate(kind)), n)
  }

  function AsTuple(xs: Counted<seq<Value>>): Counted<Value> {
    Counted(if xs.out.IsFailure() then xs.out.PropagateFailure() else Val(Tuple(xs.out.v)), xs.steps)
  }

  function RunBool(op: BoolOperator, es: seq<Expr>, c: Context, max: nat, n: nat): Counted<Value>
    decreases es
  {
    if es == [] then Counted(Val(Bool(op == And)), n)
    else
      var v := Run(es[0], c, max, n);
      if v.out.IsFailure() then v
      else if Truthy(v.out.v) == (op == Or) then Counted(Val(Bool(op == Or)), v.steps)
      else RunBool(op, es[1..], c, max, v.steps)
  }

  function RunLinks(l: Value, links: seq<Link>, c: Context, max: nat, n: nat): Counted<Value>
    decreases links
  {
    if links == [] then Counted(Val(Bool(true)), n)
    else
      assert (links decreases to links[0]);
      var r := Run(links[0].operand, c, max, n);
      if r.out.IsFailure() then r
      else
        var holds := ApplyCompare(links[0].op, l, r.out.v);
        if holds.IsFailure() then Counted(holds.PropagateFailure(), r.steps)
        else if !holds.v then Counted(Val(Bool(false)), r.steps)
        else RunLinks(r.out.v, links[1..], c, max, r.steps)
  }

  function RunAll(es: seq<Expr>, c: Context, max: nat, n: nat): Counted<seq<Value>>
    decreases es
  {
    if es == [] then Counted(Val([]), n)
    else
      var v := Run(es[0], c, max, n);
      if v.out.IsFailure() then Counted(v.out.PropagateFailure(), v.steps)
      else
        var rest := RunAll(es[1..], c, max, v.steps);
        if rest.out.IsFailure() then rest else Counted(Val([v.out.v] + rest.out.v), rest.steps)
  }

  function RunKeywords(ks: seq<Keyword>, c: Context, max: nat, n: nat): Counted<Kwargs>
    decreases ks
  {
    if ks == [] then Counted(Val([]), n)
    else if ks[0].arg.None? then RunKeywords(ks[1..], c, max, n)
    else
      assert (ks decreases to ks[0]);
      var v := Run(ks[0].value, c, max, n);
      if v.out.IsFailure() then Counted(v.out.PropagateFailure(), v.steps)
      else
        var rest := RunKeywords(ks[1..], c, max, v.steps);
        if rest.out.IsFailure() then rest
        else Counted(Val([(ks[0].arg.value, v.out.v)] + rest.out.v), rest.steps)
  }

  // ------------------------------------------- steps never outnumber the nodes

  /** The walk takes at least no and at most `nodes` further steps, and unless the
      budget is smaller than that it ends exactly as the unbudgeted one. */
  ghost predicate Faithful<T>(run: Counted<T>, plain: Outcome<T>, nodes: nat, max: nat, n: nat) {
    && n <= run.steps <= n + nodes
    && (n + nodes <= max ==> run.out == plain)
  }

  lemma {:induction false} RunFaithful(e: Expr, c: Context, max: nat, n: nat)
    ensures Faithful(Run(e, c, max, n), Evaluate(e, c), Nodes(e), max, n)
    decreases e, 1
  {
    if n + 1 <= max {
      match e
      case BoolOp(op, values) => RunBoolFaithful(op, values, c, max, n + 1);
      case UnaryOp(_, x) => RunFaithful(x, c, max, n + 1);
      case Compare(_, _) => RunCompareFaithful(e, c, max, n);
      case BinOp(_, _, _) => RunBinOpFaithful(e, c, max, n);
      case Call(_, _, _) => RunCallFaithful(e, c, max, n);
      case ListLit(elts) => RunAllFaithful(elts, c, max, n + 1);
      case TupleLit(elts) => RunAllFaithful(elts, c, max, n + 1);
      case _ =>
    }
  }

  lemma {:induction false} RunCompareFaithful(e: Expr, c: Context, max: nat, n: nat)
    requires e.Compare? && n + 1 <= max
    ensures Faithful(Run(e, c, max, n), Evaluate(e, c), Nodes(e), max, n)
    decreases e, 0
  {
    RunFaithful(e.left, c, max, n + 1);
    var l := Run(e.left, c, max, n + 1);
    if l.out.Val? {
      RunLinksFaithful(l.out.v, e.links, c, max, l.steps);
    }
  }

  lemma {:induction false} RunBinOpFaithful(e: Expr, c: Context, max: nat, n: nat)
    requires e.BinOp? && n + 1 <= max
    ensures Faithful(Run(e, c, max, n), Evaluate(e, c), Nodes(e), max, n)
    decreases e, 0
  {
    RunFaithful(e.lhs, c, max, n + 1);
    RunFaithful(e.rhs, c, max, Run(e.lhs, c, max, n + 1).steps);
  }

  lemma {:induction false} RunCallFaithful(e: Expr, c: Context, max: nat, n: nat)
    requires e.Call? && n + 1 <= max
    ensures Faithful(Run(e, c, max, n), Evaluate(e, c), Nodes(e), max, n)
    decreases e, 0
  {
    RunAllFaithful(e.args, c, max, n + 1);
    RunKeywordsFaithful(e.keywords, c, max, RunAll(e.args, c, max, n + 1).steps);
  }

  lemma {:induction false} RunBoolFaithful(op: BoolOperator, es: seq<Expr>, c: Context, max: nat, n: nat)
    ensures Faithful(RunBool(op, es, c, max, n), EvaluateBool(op, es, c), NodesAll(es), max, n)
    decreases es
  {
    if es != [] {
      RunFaithful(es[0], c, max, n);
      RunBoolFaithful(op, es[1..], c, max, Run(es[0], c, max, n).steps);
    }
  }

  lemma {:induction false} RunLinksFaithful(l: Value, links: seq<Link>, c: Context, max: nat, n: nat)
    ensures Faithful(RunLinks(l, links, c, max, n), EvaluateLinks(l, links, c), NodesLinks(links), max, n)
    decreases links
  {
    if links != [] {
      assert (links decreases to links[0]);
      RunFaithful(links[0].operand, c, max, n);
      var r := Run(links[0].operand, c, max, n);
      if r.out.Val? { RunLinksFaithful(r.out.v, links[1..], c, max, r.steps); }
    }
  }

  lemma {:induction false} RunAllFaithful(es: seq<Expr>, c: Context, max: nat, n: nat)
    ensures Faithful(RunAll(es, c, max, n), EvaluateAll(es, c), NodesAll(es), max, n)
    decreases es
  {
    if es != [] {
      RunFaithful(es[0], c, max, n);
      RunAllFaithful(es[1..], c, max, Run(es[0], c, max, n).steps);
    }
  }

  lemma {:induction false} RunKeywordsFaithful(ks: seq<Keyword>, c: Context, max: nat, n: nat)
    ensures Faithful(RunKeywords(ks, c, max, n), EvaluateKeywords(ks, c), NodesKeywords(ks), max, n)
    decreases ks
  {
    if ks != [] {
      assert (ks decreases to ks[0]);
      RunFaithful(ks[0].value, c, max, n);
      RunKeywordsFaithful(ks[1..], c, max,
                          if ks[0].arg.None? then n else Run(ks[0].value, c, max, n).steps);
    }
  }

  /** A tree under `parse`'s node ceiling can never exhaust the step budget: the
      budgeted walk is the meaning of the tree, in every context. */
  lemma {:induction false} BudgetUnreachable(body: Expr, c: Context)
    requires WithinNodeCeiling(body)
    ensures Run(body, c, MAX_STEPS, 0).out == Evaluate(body, c)
    ensures Run(body, c, MAX_STEPS, 0).steps < MAX_NODES
  {
    RunFaithful(body, c, MAX_STEPS, 0);
  }

  // ------------------------------------------------------- the imperative walk

  /** The state of one evaluation: its context, its budget and the steps taken. */
  class Interpreter {
    const context: Context
    const maxSteps: nat
    var steps: nat

    constructor (context: Context, maxSteps: nat)
      ensures this.context == context && this.maxSteps == maxSteps && steps == 0
    {
      this.context := context;
      this.maxSteps := maxSteps;
      steps := 0;
    }

    /** Evaluates a whole tree and takes the truth of its value. */
    method Start(body: Expr) returns (r: Outcome<bool>)
      modifies this`steps
      ensures var run := Run(body, context, maxSteps, old(steps));
              && steps == run.steps
              && r == Truth(run.out)
    {
      var v := Eval(body);
      r := Truth(v);
    }

    method Tick() returns (exceeded: bool)
      modifies this`steps
      ensures steps == old(steps) + 1 && exceeded == (steps > maxSteps)
    {
      steps := steps + 1;
      exceeded := steps > maxSteps;
    }

    method Eval(e: Expr) returns (r: Outcome<Value>)
      modifies this`steps
      ensures Counted(r, steps) == Run(e, context, maxSteps, old(steps))
      decreases e, 1
    {
      var exceeded := Tick();
      if exceeded {
        return RuleErr(StepBudget(maxSteps));
      }
      match e {
        case Const(v) => r := Val(v);
        case Name(id) =>
          r := if id in context.facts then Val(context.facts[id]) else RuleErr(UnknownFact(id));
        case BoolOp(op, values) => r := EvalBoolOp(op, values);
        case UnaryOp(op, x) =>
          r := Eval(x);
          if r.Val? { r := ApplyUnary(op, r.v); }
        case Compare(left, links) =>
          r := Eval(left);
          if r.Val? { r := EvalCompare(r.v, links); }
        case BinOp(left, op, right) =>
          r := Eval(left);
          if r.Val? {
            var right' := Eval(right);
            r := if right'.Val? then ApplyBinary(op, r.v, right'.v) else right';
          }
        case Call(f, args, keywords) =>
          if !f.Name? {
            return HostErr;
          }
          if f.id !in context.functions {
            return RuleErr(NotAvailable(f.id));
          }
          var xs := EvalEach(args);
          if xs.IsFailure() {
            return xs.PropagateFailure();
          }
          var ks := EvalKeywords(keywords);
          if ks.IsFailure() {
            return ks.PropagateFailure();
          }
          r := context.functions[f.id](xs.v, ks.v);
        case ListLit(elts) =>
          var xs := EvalEach(elts);
          r := if xs.Val? then Val(Tuple(xs.v)) else xs.PropagateFailure();
        case TupleLit(elts) =>
          var xs := EvalEach(elts);
          r := if xs.Val? then Val(Tuple(xs.v)) else xs.PropagateFailure();
        case Other(kind, _) => r := RuleErr(CannotEvaluate(kind));
      }
    }

    method EvalBoolOp(op: BoolOperator, values: seq<Expr>) returns (r: Outcome<Value>)
      modifies this`steps
      ensures Counted(r, steps) == RunBool(op, values, context, maxSteps, old(steps))
      decreases values, 0
    {
      var i := 0;
      while i < |values|
        invariant 0 <= i <= |values|
        invariant RunBool(op, values, context, maxSteps, old(steps))
               == RunBool(op, values[i..], context, maxSteps, steps)
      {
        assert (values decreases to values[i]);
        var v := Eval(values[i]);
        if v.IsFailure() {
          return v;
        }
        if Truthy(v.v) == (op == Or) {
          return Val(Bool(op == Or));
        }
        assert values[i..][1..] == values[i + 1..];
        i := i + 1;
      }
      r := Val(Bool(op == And));
    }

    method EvalCompare(first: Value, links: seq<Link>) returns (r: Outcome<Value>)
      modifies this`steps
      ensures Counted(r, steps) == RunLinks(first, links, context, maxSteps, old(steps))
      decreases links, 0
    {
      var left := first;
      var i := 0;
      while i < |links|
        invariant 0 <= i <= |links|
        invariant RunLinks(first, links, context, maxSteps, old(steps))
               == RunLinks(left, links[i..], context, maxSteps, steps)
      {
        assert (links decreases to links[i]);
        var right := Eval(links[i].operand);
        if right.IsFailure() {
          return right;
        }
        var holds := ApplyCompare(links[i].op, left, right.v);
        if holds.IsFailure() {
          return holds.PropagateFailure();
        }
        if !holds.v {
          return Val(Bool(false));
        }
        assert links[i..][1..] == links[i + 1..];
        left := right.v;
        i := i + 1;
      }
      r := Val(Bool(true));
    }

    method EvalEach(es: seq<Expr>) returns (r: Outcome<seq<Value>>)
      modifies this`steps
      ensures Counted(r, steps) == RunAll(es, context, maxSteps, old(steps))
      decreases es, 0
    {
      var values: seq<Value> := [];
      var i := 0;
      PrependNothing(RunAll(es, context, maxSteps, steps));
      assert es[0..] == es;
      while i < |es|
        invariant 0 <= i <= |es|
        invariant RunAll(es, context, maxSteps, old(steps))
               == Prepend(values, RunAll(es[i..], context, maxSteps, steps))
      {
        assert (es decreases to es[i]);
        var v := Eval(es[i]);
        if v.IsFailure() {
          return v.PropagateFailure();
        }
        assert es[i..][1..] == es[i + 1..];
        PrependAssociates(values, [v.v], RunAll(es[i + 1..], context, maxSteps, steps));
        values := values + [v.v];
        i := i + 1;
      }
      assert values + [] == values;
      r := Val(values);
    }

    method EvalKeywords(ks: seq<Keyword>) returns (r: Outcome<Kwargs>)
      modifies this`steps
      ensures Counted(r, steps) == RunKeywords(ks, context, maxSteps, old(steps))
      decreases ks, 0
    {
      var kwargs: Kwargs := [];
      var i := 0;
      PrependNothing(RunKeywords(ks, context, maxSteps, steps));
      assert ks[0..] == ks;
      while i < |ks|
        invariant 0 <= i <= |ks|
        invariant RunKeywords(ks, context, maxSteps, old(steps))
               == Prepend(kwargs, RunKeywords(ks[i..], context, maxSteps, steps))
      {
        assert ks[i..][1..] == ks[i + 1..];
        if ks[i].arg.Some? {
          assert (ks decreases to ks[i]);
          var v := Eval(ks[i].value);
          if v.IsFailure() {
            return v.PropagateFailure();
          }
          var pair := (ks[i].arg.value, v.v);
          PrependAssociates(kwargs, [pair], RunKeywords(ks[i + 1..], context, maxSteps, steps));
          kwargs := kwargs + [pair];
        }
        i := i + 1;
      }
      assert kwargs + [] == kwargs;
      r := Val(kwargs);
    }
  }

  ghost function Prepend<T>(done: seq<T>, rest: Counted<seq<T>>): Counted<seq<T>> {
    if rest.out.IsFailure() then rest else Counted(Val(done + rest.out.v), rest.steps)
  }

  lemma {:induction false} PrependNothing<T>(rest: Counted<seq<T>>)
    ensures Prepend([], rest) == rest
  {
    if rest.out.Val? {
      assert [] + rest.out.v == rest.out.v;
    }
  }

  lemma {:induction false} PrependAssociates<T>(a: seq<T>, b: seq<T>, rest: Counted<seq<T>>)
    ensures Prepend(a, Prepend(b, rest)) == Prepend(a + b, rest)
  {
    if rest.out.Val? {
      assert a + (b + rest.out.v) == (a + b) + rest.out.v;
    }
  }
}
