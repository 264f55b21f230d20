/** Which structures the rule builder may send: what renders, and what is refused. */
module Renderable {
  import opened Values
  import opened Arithmetic
  import opened Structured
  import opened Allowlist

  // -------------------------------------------------------------------- shapes

  predicate Lacks(j: Json, key: string) {
    j.JDict? && Find(j.fields, key).None?
  }

  predicate NameShaped(j: Json) {
    j.JText? && PlainName(j.s)
  }

  /** At most a hundred printable ASCII characters, no quote and no backslash. */
  predicate TextShaped(s: string) {
    |s| <= 100 && forall i | 0 <= i < |s| :: 32 <= s[i] as int <= 126 && s[i] as int != 39 && s[i] as int != 92
  }

  /** A number of at most 512 bits, plain text, or a list of such. */
  predicate LiteralShaped(j: Json)
    decreases j
  {
    match j
    case JInt(n) => Abs(n) < Pow2(512)
    case JText(s) => TextShaped(s)
    case JList(items) => forall i | 0 <= i < |items| :: LiteralShaped(items[i])
    case _ => false
  }

  /** A call, a fact or a literal. */
  predicate ValueShaped(j: Json)
    decreases j, 1
  {
    if !j.JDict? then LiteralShaped(j)
    else if !Lacks(j, "call") then CallShaped(j)
    else !Lacks(j, "fact") && NameShaped(Find(j.fields, "fact").value)
  }

  /** A name, settings by name and arguments in order, either of which may be absent. */
  predicate CallShaped(j: Json)
    requires j.JDict? && !Lacks(j, "call")
    decreases j, 0
  {
    && NameShaped(Find(j.fields, "call").value)
    && (Lacks(j, "args")
        || var args := Find(j.fields, "args").value;
           args.JDict? && forall i | 0 <= i < |args.fields| :: SettingShaped(args.fields[i]))
    && (Lacks(j, "positional")
        || var positional := Find(j.fields, "positional").value;
           positional.JList? && forall i | 0 <= i < |positional.items| :: ValueShaped(positional.items[i]))
  }

  /** A literal setting has the whole depth to itself. */
  predicate SettingShaped(f: Field)
    decreases f
  {
    && PlainName(f.key) && ValueShaped(f.value)
    && (!f.value.JDict? ==> Height(f.value) <= 20)
  }

  predicate OperatorShaped(j: Json) {
    j.JText? && j.s in {">", ">=", "<", "<=", "==", "!=", "in", "not in"}
  }

  /** A leaf may stand alone; with a comparison it needs something to compare with. */
  predicate ComparisonShaped(j: Json)
    requires j.JDict?
  {
    || Lacks(j, "op")
    || (OperatorShaped(Find(j.fields, "op").value) && !Lacks(j, "value") && ValueShaped(Find(j.fields, "value").value))
  }

  predicate GroupShaped(parts: Json)
    decreases parts, 1
  {
    parts.JList? && parts.items != [] && forall i | 0 <= i < |parts.items| :: RuleShaped(parts.items[i])
  }

  predicate RuleShaped(j: Json)
    decreases j, 0
  {
    && j.JDict?
    && if !Lacks(j, "all") then GroupShaped(Find(j.fields, "all").value)
       else if !Lacks(j, "any") then GroupShaped(Find(j.fields, "any").value)
       else if !Lacks(j, "not") then RuleShaped(Find(j.fields, "not").value)
       else if !Lacks(j, "call") then CallShaped(j) && ComparisonShaped(j)
       else !Lacks(j, "fact") && NameShaped(Find(j.fields, "fact").value) && ComparisonShaped(j)
  }

  // -------------------------------------------------------------------- height

  function Larger(a: nat, b: nat): nat {
    if a < b then b else a
  }

  /** How far a value nests. */
  function Height(j: Json): nat
    decreases j, 1
  {
    match j
    case JList(items) => Tallest(items)
    case JDict(_) => if Lacks(j, "call") then 0 else CallHeight(j)
    case _ => 0
  }

  /** One more than the tallest of them, and nothing if there are none. */
  function Tallest(js: seq<Json>): nat
    decreases js
  {
    if js == [] then 0 else Larger(1 + Height(js[0]), Tallest(js[1..]))
  }

  /** Settings that are literals do not add to a call's height. */
  function CallHeight(j: Json): nat
    requires j.JDict?
    decreases j, 0
  {
    var args, positional := Find(j.fields, "args"), Find(j.fields, "positional");
    Larger(if args.Some? && args.value.JDict? then TallestSetting(args.value.fields) else 0,
           if positional.Some? && positional.value.JList? then Tallest(positional.value.items) else 0)
  }

  function TallestSetting(fs: seq<Field>): nat
    decreases fs
  {
    if fs == [] then 0
    else
      assert (fs decreases to fs[0]);
      Larger(if fs[0].value.JDict? then 1 + Height(fs[0].value) else 0, TallestSetting(fs[1..]))
  }

  /** How far what a leaf compares with nests. */
  function RightHeight(j: Json): nat
    requires j.JDict?
  {
    if Lacks(j, "op") || Lacks(j, "value") then 0 else 1 + Height(Find(j.fields, "value").value)
  }

  /** How far a rule nests: groups and negations by one, and so what it compares with. */
  function RuleHeight(j: Json): nat
    decreases j, 0
  {
    if !j.JDict? then 0
    else if !Lacks(j, "all") then TallestPart(Find(j.fields, "all").value)
    else if !Lacks(j, "any") then TallestPart(Find(j.fields, "any").value)
    else if !Lacks(j, "not") then 1 + RuleHeight(Find(j.fields, "not").value)
    else Larger(if Lacks(j, "call") then 0 else CallHeight(j), RightHeight(j))
  }

  function TallestPart(parts: Json): nat
    decreases parts, 1
  {
    if parts.JList? then TallestOf(parts.items) else 0
  }

  function TallestOf(parts: seq<Json>): nat
    decreases parts
  {
    if parts == [] then 0 else Larger(1 + RuleHeight(parts[0]), TallestOf(parts[1..]))
  }

  // -------------------------------------------------------------------- leaves

  lemma {:induction false} NameRenders(j: Json)
    ensures Identifier(j).Ok? <==> NameShaped(j)
  {
    if j.JText? {
      NameIff(j.s);
    }
  }

  lemma {:induction false} TextRenders(s: string)
    ensures Quoted(s).Ok? <==> TextShaped(s)
  {
    forall i | 0 <= i < |s|
      ensures ' ' <= s[i] <= '~' && s[i] != '\'' && s[i] != '\\'
         <==> 32 <= s[i] as int <= 126 && s[i] as int != 39 && s[i] as int != 92 {}
  }

  lemma {:induction false} NumberRenders(n: int, depth: nat)
    ensures Literal(JInt(n), depth).Ok? <==> depth <= 20 && Abs(n) < Pow2(512)
  {
    FitsIffBelow(n, 512);
  }

  lemma {:induction false} LiteralRenders(j: Json, depth: nat)
    requires !j.JDict?
    ensures Literal(j, depth).Ok? <==> LiteralShaped(j) && depth + Height(j) <= 20
    decreases j, 1
  {
    match j
    case JInt(n) => NumberRenders(n, depth);
    case JText(s) => TextRenders(s);
    case JList(items) => LiteralsRender(items, depth + 1);
    case _ =>
  }

  lemma {:induction false} LiteralsRender(js: seq<Json>, depth: nat)
    requires depth > 0
    ensures Literals(js, depth).Ok?
       <==> (forall i | 0 <= i < |js| :: LiteralShaped(js[i])) && (js != [] ==> depth - 1 + Tallest(js) <= 20)
    decreases js, 0
  {
    if js != [] {
      assert forall i | 0 < i < |js| :: js[i] == js[1..][i - 1];
      assert forall i | 0 <= i < |js[1..]| :: js[1..][i] == js[i + 1];
      if js[0].JDict? {
        assert !LiteralShaped(js[0]) && Literal(js[0], depth).Bad?;
      } else {
        LiteralRenders(js[0], depth);
      }
      LiteralsRender(js[1..], depth);
    }
  }

  // ------------------------------------------------------------- values and calls

  lemma {:induction false} TextNames(f: Field)
    ensures Identifier(JText(f.key)).Ok? <==> PlainName(f.key)
  {
    NameRenders(JText(f.key));
  }

  lemma {:induction false} ValueRenders(j: Json, depth: nat)
    ensures RenderValue(j, depth).Ok? <==> ValueShaped(j) && depth + Height(j) <= 20
    decreases j, 1
  {
    if !j.JDict? {
      LiteralRenders(j, depth);
    } else if !Lacks(j, "call") {
      CallRenders(j, depth);
    } else if !Lacks(j, "fact") {
      NameRenders(Find(j.fields, "fact").value);
    }
  }

  lemma {:induction false} ValuesRender(js: seq<Json>, depth: nat)
    requires depth > 0
    ensures RenderValues(js, depth).Ok?
       <==> (forall i | 0 <= i < |js| :: ValueShaped(js[i])) && (js != [] ==> depth - 1 + Tallest(js) <= 20)
    decreases js, 0
  {
    if js != [] {
      assert forall i | 0 < i < |js| :: js[i] == js[1..][i - 1];
      assert forall i | 0 <= i < |js[1..]| :: js[1..][i] == js[i + 1];
      ValueRenders(js[0], depth);
      ValuesRender(js[1..], depth);
    }
  }

  lemma {:induction false} SettingRenders(f: Field, depth: nat)
    ensures RenderArg(f, depth).Ok?
       <==> SettingShaped(f) && (f.value.JDict? ==> depth + 1 + Height(f.value) <= 20)
    decreases f, 0
  {
    TextNames(f);
    if f.value.JDict? {
      ValueRenders(f.value, depth + 1);
    } else {
      LiteralRenders(f.value, 0);
    }
  }

  lemma {:induction false} SettingsRender(fs: seq<Field>, depth: nat)
    requires depth <= 20
    ensures RenderArgs(fs, depth).Ok?
       <==> (forall i | 0 <= i < |fs| :: SettingShaped(fs[i])) && depth + TallestSetting(fs) <= 20
    decreases fs, 0
  {
    if fs != [] {
      assert forall i | 0 < i < |fs| :: fs[i] == fs[1..][i - 1];
      assert forall i | 0 <= i < |fs[1..]| :: fs[1..][i] == fs[i + 1];
      assert (fs decreases to fs[0]);
      SettingRenders(fs[0], depth);
      SettingsRender(fs[1..], depth);
    }
  }

  /** The settings half of a call. */
  predicate SettingsFit(j: Json, depth: nat)
    requires j.JDict?
  {
    Lacks(j, "args")
    || var args := Find(j.fields, "args").value;
       args.JDict? && (forall i | 0 <= i < |args.fields| :: SettingShaped(args.fields[i]))
       && depth + TallestSetting(args.fields) <= 20
  }

  /** The arguments half of a call. */
  predicate ArgumentsFit(j: Json, depth: nat)
    requires j.JDict?
  {
    Lacks(j, "positional")
    || var positional := Find(j.fields, "positional").value;
       positional.JList? && (forall i | 0 <= i < |positional.items| :: ValueShaped(positional.items[i]))
       && depth + Tallest(positional.items) <= 20
  }

  lemma {:induction false} HalvesMakeCall(j: Json, depth: nat)
    requires j.JDict? && !Lacks(j, "call")
    ensures CallShaped(j) && depth + CallHeight(j) <= 20
       <==> depth <= 20 && NameShaped(Find(j.fields, "call").value) && SettingsFit(j, depth) && ArgumentsFit(j, depth)
  {
  }

  lemma {:induction false} CallRenders(j: Json, depth: nat)
    requires j.JDict? && Find(j.fields, "call").Some?
    ensures RenderCall(j, depth).Ok? <==> CallShaped(j) && depth + CallHeight(j) <= 20
    decreases j, 0
  {
    if depth <= 20 {
      NameRenders(Find(j.fields, "call").value);
      var args, positional := Args(j.fields), Positional(j.fields);
      if args.Ok? {
        if args.v != [] {
          SettingsRender(args.v, depth);
        }
        SettingsHalf(j, depth);
      }
      if positional.Ok? {
        if positional.v != [] {
          ValuesRender(positional.v, depth + 1);
        }
        ArgumentsHalf(j, depth);
      }
      RenderCallIff(j, depth);
    }
    HalvesMakeCall(j, depth);
  }

  lemma {:induction false} SettingsHalf(j: Json, depth: nat)
    requires j.JDict? && depth <= 20 && Args(j.fields).Ok?
    requires Args(j.fields).v != [] ==>
               var fs := Args(j.fields).v;
               RenderArgs(fs, depth).Ok?
               <==> (forall i | 0 <= i < |fs| :: SettingShaped(fs[i])) && depth + TallestSetting(fs) <= 20
    ensures (Args(j.fields).v == [] || RenderArgs(Args(j.fields).v, depth).Ok?) <==> SettingsFit(j, depth)
  {
  }

  lemma {:induction false} ArgumentsHalf(j: Json, depth: nat)
    requires j.JDict? && depth <= 20 && Positional(j.fields).Ok?
    requires Positional(j.fields).v != [] ==>
               var js := Positional(j.fields).v;
               RenderValues(js, depth + 1).Ok?
               <==> (forall i | 0 <= i < |js| :: ValueShaped(js[i])) && depth + Tallest(js) <= 20
    ensures (Positional(j.fields).v == [] || RenderValues(Positional(j.fields).v, depth + 1).Ok?)
       <==> ArgumentsFit(j, depth)
  {
  }

  lemma {:induction false} RenderCallIff(j: Json, depth: nat)
    requires j.JDict? && Find(j.fields, "call").Some? && depth <= 20
    ensures RenderCall(j, depth).Ok?
       <==> && Identifier(Find(j.fields, "call").value).Ok?
            && Args(j.fields).Ok? && (Args(j.fields).v == [] || RenderArgs(Args(j.fields).v, depth).Ok?)
            && Positional(j.fields).Ok?
            && (Positional(j.fields).v == [] || RenderValues(Positional(j.fields).v, depth + 1).Ok?)
  {
  }

  // --------------------------------------------------------------------- rules

  lemma {:induction false} OperatorKnown(op: Json)
    ensures op.JText? && Operator(op.s).Some? <==> OperatorShaped(op)
  {
  }

  lemma {:induction false} ComparisonRenders(left: string, j: Json, depth: nat)
    requires j.JDict? && depth <= 20
    ensures RenderComparison(left, j, depth).Ok? <==> ComparisonShaped(j) && depth + RightHeight(j) <= 20
  {
    if !Lacks(j, "op") {
      OperatorKnown(Find(j.fields, "op").value);
      if !Lacks(j, "value") {
        ValueRenders(Find(j.fields, "value").value, depth + 1);
      }
    }
  }

  lemma {:induction false} LeafRenders(j: Json, top: bool, depth: nat)
    requires j.JDict? && depth <= 20 && Lacks(j, "all") && Lacks(j, "any") && Lacks(j, "not")
    ensures Render(j, top, depth).Ok? <==> RuleShaped(j) && depth + RuleHeight(j) <= 20
  {
    if !Lacks(j, "call") {
      CallRenders(j, depth);
      if RenderCall(j, depth).Ok? {
        ComparisonRenders(RenderCall(j, depth).v, j, depth);
      }
    } else if !Lacks(j, "fact") {
      var left := Identifier(Find(j.fields, "fact").value);
      NameRenders(Find(j.fields, "fact").value);
      if left.Ok? {
        ComparisonRenders(left.v, j, depth);
      }
    }
  }

  lemma {:induction false} PartsRender(parts: seq<Json>, depth: nat)
    requires depth > 0
    ensures RenderEach(parts, depth).Ok?
       <==> (forall i | 0 <= i < |parts| :: RuleShaped(parts[i]))
            && (parts != [] ==> depth - 1 + TallestOf(parts) <= 20)
    decreases parts, 0
  {
    if parts != [] {
      assert forall i | 0 < i < |parts| :: parts[i] == parts[1..][i - 1];
      assert forall i | 0 <= i < |parts[1..]| :: parts[1..][i] == parts[i + 1];
      RuleRenders(parts[0], false, depth);
      PartsRender(parts[1..], depth);
    }
  }

  lemma {:induction false} GroupRenders(parts: Json, joiner: string, top: bool, depth: nat)
    requires depth <= 20
    ensures RenderGroup(parts, joiner, top, depth).Ok? <==> GroupShaped(parts) && depth + TallestPart(parts) <= 20
    decreases parts, 1
  {
    if parts.JList? && parts.items != [] {
      PartsRender(parts.items, depth + 1);
    }
  }

  lemma {:induction false} RuleRenders(j: Json, top: bool, depth: nat)
    ensures Render(j, top, depth).Ok? <==> RuleShaped(j) && depth + RuleHeight(j) <= 20
    decreases j, 0
  {
    if depth > 20 || !j.JDict? {
    } else if !Lacks(j, "all") {
      GroupRenders(Find(j.fields, "all").value, "and", top, depth);
    } else if !Lacks(j, "any") {
      GroupRenders(Find(j.fields, "any").value, "or", top, depth);
    } else if !Lacks(j, "not") {
      RuleRenders(Find(j.fields, "not").value, false, depth + 1);
    } else {
      LeafRenders(j, top, depth);
    }
  }

  /** A structure is accepted exactly when it is a rule of the right shape, nests at
      most twenty deep and takes at most two thousand characters to write out. */
  lemma {:induction false} RendersIff(j: Json)
    ensures Render(j, true, 0).Ok? <==> RuleShaped(j) && RuleHeight(j) <= 20
    ensures ToExpression(j).Ok? <==> RuleShaped(j) && RuleHeight(j) <= 20 && |Render(j, true, 0).v| <= 2000
  {
    RuleRenders(j, true, 0);
  }
}
