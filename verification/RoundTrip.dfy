/** The builder's promise: what it renders is read back as the rule that was drawn,
    and evaluates to what the structure means. */
module RoundTrip {
  import opened Values
  import opened Syntax
  import opened Validator
  import opened Interpretation
  import opened Structured
  import opened RuleText
  import opened Printing
  import opened ParsingBack

  // ------------------------------------------------- the tree a structure draws

  const JUNK := Other("structured", [])

  function LiteralTree(j: Json): Expr
    decreases j
  {
    match j
    case JInt(n) => if n < 0 then UnaryOp(USub, Const(Int(-n))) else Const(Int(n))
    case JText(s) => Const(Text(s))
    case JList(items) => ListLit(LiteralTrees(items))
    case _ => JUNK
  }

  function LiteralTrees(js: seq<Json>): (r: seq<Expr>)
    ensures |r| == |js|
    decreases js
  {
    if js == [] then [] else [LiteralTree(js[0])] + LiteralTrees(js[1..])
  }

  function NameTree(j: Json): Expr {
    if j.JText? then Name(j.s) else JUNK
  }

  function SubjectTree(j: Json): Expr
    decreases j, 1
  {
    if !j.JDict? then LiteralTree(j)
    else if Find(j.fields, "call").Some? then CallTree(j)
    else if Find(j.fields, "fact").Some? then NameTree(Find(j.fields, "fact").value)
    else JUNK
  }

  function CallTree(j: Json): Expr
    requires j.JDict? && Find(j.fields, "call").Some?
    decreases j, 0
  {
    var args, positional := Args(j.fields), Positional(j.fields);
    if args.Bad? || positional.Bad? then JUNK
    else
      Call(NameTree(Find(j.fields, "call").value),
           if positional.v == [] then [] else SubjectTrees(positional.v),
           if args.v == [] then [] else ArgTrees(args.v))
  }

  function SubjectTrees(js: seq<Json>): (r: seq<Expr>)
    ensures |r| == |js|
    decreases js
  {
    if js == [] then [] else [SubjectTree(js[0])] + SubjectTrees(js[1..])
  }

  function ArgTree(f: Field): Keyword
    decreases f
  {
    Keyword(Some(f.key), SubjectTree(f.value))
  }

  function ArgTrees(fs: seq<Field>): (r: seq<Keyword>)
    ensures |r| == |fs|
    decreases fs
  {
    if fs == [] then [] else [ArgTree(fs[0])] + ArgTrees(fs[1..])
  }

  function GroupTree(op: BoolOperator, parts: Json): Expr
    decreases parts, 4
  {
    if !parts.JList? then JUNK
    else if |parts.items| == 1 then RuleTree(parts.items[0])
    else BoolOp(op, RuleTrees(parts.items))
  }

  function RuleTree(j: Json): Expr
    decreases j, 3
  {
    if !j.JDict? then JUNK
    else if Find(j.fields, "all").Some? then GroupTree(And, Find(j.fields, "all").value)
    else if Find(j.fields, "any").Some? then GroupTree(Or, Find(j.fields, "any").value)
    else if Find(j.fields, "not").Some? then UnaryOp(Not, RuleTree(Find(j.fields, "not").value))
    else LeafTree(j)
  }

  function LeafTree(j: Json): Expr
    requires j.JDict?
    decreases j, 2
  {
    var op, value := Find(j.fields, "op"), Find(j.fields, "value");
    if op.None? then SubjectTree(j)
    else if !op.value.JText? || Operator(op.value.s).None? || value.None? then JUNK
    else Compare(SubjectTree(j), [Link(Operator(op.value.s).value, SubjectTree(value.value))])
  }

  function RuleTrees(js: seq<Json>): (r: seq<Expr>)
    ensures |r| == |js|
    decreases js
  {
    if js == [] then [] else [RuleTree(js[0])] + RuleTrees(js[1..])
  }

  /** Only a group of several parts at the very top goes without parentheses. */
  predicate Bare(j: Json, top: bool) {
    top && j.JDict? &&
    var all, some := Find(j.fields, "all"), Find(j.fields, "any");
    if all.Some? then all.value.JList? && |all.value.items| != 1
    else some.Some? && some.value.JList? && |some.value.items| != 1
  }

  // ----------------------------------------------------- rendering is printing

  ghost predicate PrintsOperand(r: Rendered<string>, e: Expr) {
    r.Ok? ==> DrawnOperand(e) && r.v == OperandText(e)
  }

  ghost predicate PrintOperands(r: Rendered<seq<string>>, es: seq<Expr>) {
    r.Ok? ==> (forall i | 0 <= i < |es| :: DrawnOperand(es[i])) && r.v == OperandTexts(es)
  }

  lemma {:induction false} LiteralPrints(j: Json, depth: nat)
    ensures PrintsOperand(Literal(j, depth), LiteralTree(j))
    decreases j
  {
    if j.JList? {
      LiteralsPrint(j.items, depth + 1);
    }
  }

  lemma {:induction false} LiteralsPrint(js: seq<Json>, depth: nat)
    ensures PrintOperands(Literals(js, depth), LiteralTrees(js))
    decreases js
  {
    if js != [] {
      LiteralPrints(js[0], depth);
      LiteralsPrint(js[1..], depth);
    }
  }

  lemma {:induction false} ValuePrints(j: Json, depth: nat)
    ensures PrintsOperand(RenderValue(j, depth), SubjectTree(j))
    decreases j, 1
  {
    if j.JDict? {
      if Find(j.fields, "call").Some? {
        CallPrints(j, depth);
      }
    } else {
      LiteralPrints(j, depth);
    }
  }

  lemma {:induction false} ValuesPrint(js: seq<Json>, depth: nat)
    ensures PrintOperands(RenderValues(js, depth), SubjectTrees(js))
    decreases js
  {
    if js != [] {
      ValuePrints(js[0], depth);
      ValuesPrint(js[1..], depth);
    }
  }

  lemma {:induction false} ArgPrints(f: Field, depth: nat)
    ensures RenderArg(f, depth).Ok? ==> DrawnKeyword(ArgTree(f)) && RenderArg(f, depth).v == KeywordText(ArgTree(f))
    decreases f
  {
    if f.value.JDict? {
      ValuePrints(f.value, depth + 1);
    } else {
      LiteralPrints(f.value, 0);
    }
  }

  lemma {:induction false} ArgsPrint(fs: seq<Field>, depth: nat)
    ensures RenderArgs(fs, depth).Ok? ==>
              && (forall i | 0 <= i < |fs| :: DrawnKeyword(ArgTrees(fs)[i]))
              && RenderArgs(fs, depth).v == KeywordTexts(ArgTrees(fs))
    decreases fs
  {
    if fs != [] {
      ArgPrints(fs[0], depth);
      ArgsPrint(fs[1..], depth);
    }
  }

  lemma {:induction false} CallPrints(j: Json, depth: nat)
    requires j.JDict? && Find(j.fields, "call").Some?
    ensures PrintsOperand(RenderCall(j, depth), CallTree(j))
    decreases j, 0
  {
    var args, positional := Args(j.fields), Positional(j.fields);
    if args.Ok? && args.v != [] {
      ArgsPrint(args.v, depth);
    }
    if positional.Ok? && positional.v != [] {
      ValuesPrint(positional.v, depth + 1);
    }
  }

  lemma {:induction false} SubjectPrints(j: Json, depth: nat)
    requires j.JDict?
    ensures Find(j.fields, "call").Some? ==> PrintsOperand(RenderCall(j, depth), SubjectTree(j))
    ensures Find(j.fields, "call").None? && Find(j.fields, "fact").Some? ==>
              PrintsOperand(Identifier(Find(j.fields, "fact").value), SubjectTree(j))
  {
    if Find(j.fields, "call").Some? {
      CallPrints(j, depth);
    }
  }

  lemma {:induction false} OperatorText(op: string)
    requires Operator(op).Some?
    ensures OpText(Operator(op).value) == op && CmpAllowed(Operator(op).value)
  {
  }

  ghost predicate PrintsRule(r: Rendered<string>, e: Expr, bare: bool) {
    r.Ok? ==> Drawn(e) && r.v == RuleOf(e, bare)
  }

  /** An operand on its own prints as a rule. */
  lemma {:induction false} OperandIsRule(e: Expr, bare: bool)
    requires DrawnOperand(e)
    ensures Drawn(e) && RuleOf(e, bare) == OperandText(e)
  {
  }

  lemma {:induction false} LeafPrints(j: Json, left: Rendered<string>, depth: nat, bare: bool)
    requires j.JDict? && left.Ok? && PrintsOperand(left, SubjectTree(j))
    ensures PrintsRule(RenderComparison(left.v, j, depth), LeafTree(j), bare)
  {
    if Find(j.fields, "op").None? {
      OperandIsRule(SubjectTree(j), bare);
    } else if Find(j.fields, "value").Some? {
      var op := Find(j.fields, "op").value;
      ValuePrints(Find(j.fields, "value").value, depth + 1);
      if op.JText? && Operator(op.s).Some? {
        OperatorText(op.s);
      }
    }
  }

  lemma {:induction false} GroupPrints(op: BoolOperator, parts: Json, top: bool, depth: nat)
    ensures PrintsRule(RenderGroup(parts, Joiner(op), top, depth), GroupTree(op, parts),
                       top && parts.JList? && |parts.items| != 1)
    decreases parts, 4
  {
    if parts.JList? && parts.items != [] {
      RulesPrint(parts.items, depth + 1);
      if |parts.items| == 1 {
        assert RuleTrees(parts.items) == [RuleTree(parts.items[0])];
      }
    }
  }

  lemma {:induction false} RulesPrint(js: seq<Json>, depth: nat)
    ensures RenderEach(js, depth).Ok? ==>
              && (forall i | 0 <= i < |js| :: Drawn(RuleTrees(js)[i]))
              && RenderEach(js, depth).v == RuleTexts(RuleTrees(js))
    decreases js
  {
    if js != [] {
      RulePrints(js[0], false, depth);
      RulesPrint(js[1..], depth);
    }
  }

  /** Rendering a structure prints the tree it draws. */
  lemma {:induction false} RulePrints(j: Json, top: bool, depth: nat)
    ensures PrintsRule(Render(j, top, depth), RuleTree(j), Bare(j, top))
    decreases j, 3
  {
    if depth <= MAX_STRUCTURED_DEPTH && j.JDict? {
      if Find(j.fields, "all").Some? {
        GroupPrints(And, Find(j.fields, "all").value, top, depth);
      } else if Find(j.fields, "any").Some? {
        GroupPrints(Or, Find(j.fields, "any").value, top, depth);
      } else if Find(j.fields, "not").Some? {
        RulePrints(Find(j.fields, "not").value, false, depth + 1);
      } else {
        SubjectPrints(j, depth);
        var left := if Find(j.fields, "call").Some? then RenderCall(j, depth)
                    else if Find(j.fields, "fact").Some? then Identifier(Find(j.fields, "fact").value)
                    else Bad(Malformed);
        if left.Ok? {
          LeafPrints(j, left, depth, Bare(j, top));
        }
      }
    }
  }

  // ----------------------------------------------- the tree means the structure

  lemma {:induction false} LiteralMeans(j: Json, depth: nat, c: Context)
    requires Literal(j, depth).Ok?
    ensures Evaluate(LiteralTree(j), c) == ValueMeaning(j, c)
    decreases j
  {
    if j.JList? {
      LiteralsMean(j.items, depth + 1, c);
    }
  }

  lemma {:induction false} LiteralsMean(js: seq<Json>, depth: nat, c: Context)
    requires Literals(js, depth).Ok?
    ensures EvaluateAll(LiteralTrees(js), c) == ValueMeanings(js, c)
    decreases js
  {
    if js != [] {
      LiteralMeans(js[0], depth, c);
      LiteralsMean(js[1..], depth, c);
    }
  }

  lemma {:induction false} ValueMeans(j: Json, depth: nat, c: Context)
    requires RenderValue(j, depth).Ok?
    ensures Evaluate(SubjectTree(j), c) == ValueMeaning(j, c)
    decreases j, 1
  {
    if !j.JDict? {
      LiteralMeans(j, depth, c);
    } else if Find(j.fields, "call").Some? {
      CallMeans(j, depth, c);
    }
  }

  lemma {:induction false} ValuesMean(js: seq<Json>, depth: nat, c: Context)
    requires RenderValues(js, depth).Ok?
    ensures EvaluateAll(SubjectTrees(js), c) == ValueMeanings(js, c)
    decreases js
  {
    if js != [] {
      ValueMeans(js[0], depth, c);
      ValuesMean(js[1..], depth, c);
    }
  }

  lemma {:induction false} ArgsMean(fs: seq<Field>, depth: nat, c: Context)
    requires RenderArgs(fs, depth).Ok?
    ensures EvaluateKeywords(ArgTrees(fs), c) == ArgMeanings(fs, c)
    decreases fs
  {
    if fs != [] {
      assert (fs decreases to fs[0]);
      var f := fs[0];
      if f.value.JDict? {
        ValueMeans(f.value, depth + 1, c);
      } else {
        LiteralMeans(f.value, 0, c);
      }
      ArgsMean(fs[1..], depth, c);
      LiteralSubject(f.value);
      ArgTreesSplit(fs);
    }
  }

  lemma {:induction false} ArgTreesSplit(fs: seq<Field>)
    requires fs != []
    ensures ArgTrees(fs)[0] == ArgTree(fs[0]) && ArgTrees(fs)[1..] == ArgTrees(fs[1..])
  {
    assert ([ArgTree(fs[0])] + ArgTrees(fs[1..]))[1..] == ArgTrees(fs[1..]);
  }

  lemma {:induction false} LiteralSubject(j: Json)
    ensures !j.JDict? ==> SubjectTree(j) == LiteralTree(j)
  {
  }

  lemma {:induction false} CallEvaluates(name: string, args: seq<Expr>, ks: seq<Keyword>, c: Context,
                                         xs: Outcome<seq<Value>>, kw: Outcome<Kwargs>)
    requires EvaluateAll(args, c) == xs && EvaluateKeywords(ks, c) == kw
    ensures Evaluate(Call(Name(name), args, ks), c)
         == if name !in c.functions then RuleErr(NotAvailable(name))
            else if xs.IsFailure() then xs.PropagateFailure()
            else if kw.IsFailure() then kw.PropagateFailure()
            else c.functions[name](xs.v, kw.v)
  {
  }

  lemma {:induction false} CallMeans(j: Json, depth: nat, c: Context)
    requires j.JDict? && Find(j.fields, "call").Some? && RenderCall(j, depth).Ok?
    ensures Evaluate(CallTree(j), c) == CallMeaning(j, c)
    decreases j, 0
  {
    var args, positional := Args(j.fields), Positional(j.fields);
    var named := if args.v == [] then Val([]) else ArgMeanings(args.v, c);
    var values := if positional.v == [] then Val([]) else ValueMeanings(positional.v, c);
    if args.v != [] {
      ArgsMean(args.v, depth, c);
    }
    if positional.v != [] {
      ValuesMean(positional.v, depth + 1, c);
    }
    CallEvaluates(Find(j.fields, "call").value.s, CallTree(j).args, CallTree(j).keywords, c, values, named);
  }

  lemma {:induction false} SubjectMeans(j: Json, depth: nat, c: Context)
    requires j.JDict?
    requires if Find(j.fields, "call").Some? then RenderCall(j, depth).Ok?
             else Find(j.fields, "fact").Some? && Identifier(Find(j.fields, "fact").value).Ok?
    ensures Evaluate(SubjectTree(j), c) == Subject(j, c)
  {
    if Find(j.fields, "call").Some? {
      CallMeans(j, depth, c);
    }
  }

  lemma {:induction false} OneLink(l: Value, link: Link, c: Context)
    requires CmpAllowed(link.op)
    ensures EvaluateLinks(l, [link], c)
         == (var r := Evaluate(link.operand, c);
             if r.IsFailure() then r
             else var holds := ApplyCompare(link.op, l, r.v);
                  if holds.IsFailure() then holds.PropagateFailure() else Val(Bool(holds.v)))
  {
    assert [link][1..] == [];
  }

  lemma {:induction false} LeafMeans(j: Json, left: string, depth: nat, c: Context)
    requires j.JDict? && Evaluate(SubjectTree(j), c) == Subject(j, c) && RenderComparison(left, j, depth).Ok?
    requires Find(j.fields, "all").None? && Find(j.fields, "any").None? && Find(j.fields, "not").None?
    ensures Matches(LeafTree(j), c) == Meaning(j, c)
  {
    if Find(j.fields, "op").Some? {
      var op, value := Find(j.fields, "op").value, Find(j.fields, "value").value;
      ValueMeans(value, depth + 1, c);
      OperatorText(op.s);
      if Subject(j, c).Val? {
        OneLink(Subject(j, c).v, Link(Operator(op.s).value, SubjectTree(value)), c);
      }
    }
  }

  lemma {:induction false} PartsMean(op: BoolOperator, js: seq<Json>, depth: nat, c: Context)
    requires RenderEach(js, depth).Ok?
    ensures Truth(EvaluateBool(op, RuleTrees(js), c)) == (if op == And then EveryPart(js, c) else SomePart(js, c))
    decreases js
  {
    if js != [] {
      RuleMeans(js[0], false, depth, c);
      PartsMean(op, js[1..], depth, c);
    }
  }

  lemma {:induction false} GroupMeans(op: BoolOperator, parts: Json, top: bool, depth: nat, c: Context)
    requires RenderGroup(parts, Joiner(op), top, depth).Ok?
    ensures parts.JList?
    ensures Matches(GroupTree(op, parts), c)
         == (if op == And then EveryPart(parts.items, c) else SomePart(parts.items, c))
    decreases parts, 4
  {
    PartsMean(op, parts.items, depth + 1, c);
    if |parts.items| == 1 {
      RuleMeans(parts.items[0], false, depth + 1, c);
      assert parts.items[1..] == [];
    }
  }

  /** Evaluating the tree a structure draws gives the structure's own meaning. */
  lemma {:induction false} RuleMeans(j: Json, top: bool, depth: nat, c: Context)
    requires Render(j, top, depth).Ok?
    ensures Matches(RuleTree(j), c) == Meaning(j, c)
    decreases j, 3
  {
    if Find(j.fields, "all").Some? {
      GroupMeans(And, Find(j.fields, "all").value, top, depth, c);
    } else if Find(j.fields, "any").Some? {
      GroupMeans(Or, Find(j.fields, "any").value, top, depth, c);
    } else if Find(j.fields, "not").Some? {
      RuleMeans(Find(j.fields, "not").value, false, depth + 1, c);
    } else {
      SubjectMeans(j, depth, c);
      var left := if Find(j.fields, "call").Some? then RenderCall(j, depth)
                  else Identifier(Find(j.fields, "fact").value);
      LeafMeans(j, left.v, depth, c);
    }
  }

  // ------------------------------------------------------------- the promise

  /** The rendered text parses to the rule as drawn exactly when no fact, function
      or setting in it is named like a Python keyword. */
  lemma {:induction false} RenderedTextReadsBackIff(j: Json, text: string)
    requires ToExpression(j) == Ok(text)
    ensures ParseText(text) == Some(RuleTree(j)) <==> Unreserved(RuleTree(j))
  {
    RulePrints(j, true, 0);
    if Unreserved(RuleTree(j)) {
      PrintParses(RuleTree(j), Bare(j, true));
    }
    ParsedIsUnreserved(text);
  }

  /** Every structured rule that renders, with no name reserved, is interpreted from
      its rendered text to the same truth value or error as its structure means. */
  lemma {:induction false} RenderedTextMeans(j: Json, text: string, c: Context)
    requires ToExpression(j) == Ok(text) && Unreserved(RuleTree(j))
    ensures ParseText(text).Some?
    ensures Matches(ParseText(text).value, c) == Meaning(j, c)
  {
    RenderedTextReadsBackIff(j, text);
    RuleMeans(j, true, 0, c);
  }

  lemma {:induction false} TrueReadsAsConstant()
    ensures ParseText("True") == Some(Const(Bool(true)))
  {
    LexName("True", "");
    assert "True" + "" == "True";
    assert [Word("True")] + [] == [Word("True")];
    assert Lex("True") == Some([Word("True")]);
    var ts := [Word("True")];
    assert ts[1..] == [];
    assert ParseOperand(ts) == Got(Const(Bool(true)), []);
    NotLift(ts, Const(Bool(true)), []);
    AndLift(ts, Const(Bool(true)), []);
    OrLift(ts, Const(Bool(true)), []);
  }

  lemma {:induction false} TrueRenders(j: Json, c: Context)
    requires j == JDict([Field("fact", JText("True"))]) && "True" !in c.facts
    ensures ToExpression(j) == Ok("True") && Meaning(j, c) == RuleErr(UnknownFact("True"))
  {
    assert Find(j.fields[1..], "all").None? && Find(j.fields[1..], "any").None? && Find(j.fields[1..], "not").None?;
    assert Find(j.fields[1..], "call").None? && Find(j.fields[1..], "op").None?;
    assert AsciiIdentifier("True");
  }

  /** `_identifier` lets a fact be called `True`; the text then says something else. */
  lemma {:induction false} ReservedFactMisread(c: Context)
    requires "True" !in c.facts
    ensures var j := JDict([Field("fact", JText("True"))]);
            && ToExpression(j) == Ok("True")
            && Meaning(j, c) == RuleErr(UnknownFact("True"))
            && ParseText("True") == Some(Const(Bool(true)))
            && Matches(Const(Bool(true)), c) == Val(true)
  {
    TrueReadsAsConstant();
    TrueRenders(JDict([Field("fact", JText("True"))]), c);
  }
}
