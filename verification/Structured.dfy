/** The rule builder's structured form, rendered to rule text. */
module Structured {
  import opened Values
  import opened Syntax
  import opened Arithmetic
  import opened Decimal
  import opened Validator
  import opened Interpretation

  /** Decoded JSON; an object keeps its fields in order. */
  datatype Json =
    | JNull
    | JBool(b: bool)
    | JInt(n: int)
    | JFloat
    | JText(s: string)
    | JList(items: seq<Json>)
    | JDict(fields: seq<Field>)

  datatype Field = Field(key: string, value: Json)

  datatype RenderError = TooDeep | Malformed | NumberTooBig | BadName | TooMuchInput

  datatype Rendered<+T> = Ok(v: T) | Bad(error: RenderError)
  {
    predicate IsFailure() {
      Bad?
    }

    function PropagateFailure<U>(): Rendered<U>
      requires Bad?
    {
      Bad(error)
    }

    function Extract(): T
      requires Ok?
    {
      v
    }
  }

  const MAX_STRUCTURED_DEPTH: nat := 20
  const MAX_SOURCE_CHARS: nat := 2000
  const MAX_TEXT: nat := 100

  function Find(fs: seq<Field>, k: string): (r: Option<Json>)
    ensures r.Some? ==> (fs decreases to r.value)
  {
    if fs == [] then None
    else if fs[0].key == k then
      assert (fs decreases to fs[0]);
      Some(fs[0].value)
    else Find(fs[1..], k)
  }

  // --------------------------------------------------------------- the leaves

  function Operator(op: string): Option<CmpOperator> {
    if op == ">" then Some(Gt)
    else if op == ">=" then Some(GtE)
    else if op == "<" then Some(Lt)
    else if op == "<=" then Some(LtE)
    else if op == "==" then Some(Eq)
    else if op == "!=" then Some(NotEq)
    else if op == "in" then Some(In)
    else if op == "not in" then Some(NotIn)
    else None
  }

  function Identifier(j: Json): Rendered<string> {
    if !j.JText? then Bad(Malformed)
    else if !AsciiIdentifier(j.s) then Bad(BadName)
    else Ok(j.s)
  }

  /** Printable ASCII without quotes or backslashes. */
  predicate SafeText(s: string) {
    forall i | 0 <= i < |s| :: ' ' <= s[i] <= '~' && s[i] != '\'' && s[i] != '\\'
  }

  function Quoted(s: string): Rendered<string> {
    if |s| > MAX_TEXT || !SafeText(s) then Bad(Malformed) else Ok("'" + s + "'")
  }

  function Join(parts: seq<string>, sep: string): string {
    if parts == [] then ""
    else if |parts| == 1 then parts[0]
    else parts[0] + sep + Join(parts[1..], sep)
  }

  function Literal(j: Json, depth: nat): Rendered<string>
    decreases j
  {
    if depth > MAX_STRUCTURED_DEPTH then Bad(TooDeep)
    else
      match j
      case JInt(n) => if BitLength(n) > MAX_RESULT_BITS then Bad(NumberTooBig) else Ok(Str(n))
      case JText(s) => Quoted(s)
      case JList(items) =>
        var parts :- Literals(items, depth + 1);
        Ok("[" + Join(parts, ", ") + "]")
      case _ => Bad(Malformed)
  }

  function Literals(js: seq<Json>, depth: nat): Rendered<seq<string>>
    decreases js
  {
    if js == [] then Ok([])
    else
      var first :- Literal(js[0], depth);
      var rest :- Literals(js[1..], depth);
      Ok([first] + rest)
  }

  // ---------------------------------------------------------------- the rules

  function Render(j: Json, top: bool, depth: nat): Rendered<string>
    decreases j, 3
  {
    if depth > MAX_STRUCTURED_DEPTH then Bad(TooDeep)
    else if !j.JDict? then Bad(Malformed)
    else if Find(j.fields, "all").Some? then RenderGroup(Find(j.fields, "all").value, "and", top, depth)
    else if Find(j.fields, "any").Some? then RenderGroup(Find(j.fields, "any").value, "or", top, depth)
    else if Find(j.fields, "not").Some? then
      var inner :- Render(Find(j.fields, "not").value, false, depth + 1);
      Ok("not (" + inner + ")")
    else if Find(j.fields, "call").Some? then
      var left :- RenderCall(j, depth);
      RenderComparison(left, j, depth)
    else if Find(j.fields, "fact").Some? then
      var left :- Identifier(Find(j.fields, "fact").value);
      RenderComparison(left, j, depth)
    else Bad(Malformed)
  }

  function RenderGroup(parts: Json, joiner: string, top: bool, depth: nat): Rendered<string>
    decreases parts, 4
  {
    if !parts.JList? || parts.items == [] then Bad(Malformed)
    else
      var rendered :- RenderEach(parts.items, depth + 1);
      var joined := Join(rendered, " " + joiner + " ");
      Ok(if |rendered| == 1 || top then joined else "(" + joined + ")")
  }

  function RenderEach(parts: seq<Json>, depth: nat): (r: Rendered<seq<string>>)
    ensures r.Ok? ==> |r.v| == |parts|
    decreases parts
  {
    if parts == [] then Ok([])
    else
      var first :- Render(parts[0], false, depth);
      var rest :- RenderEach(parts[1..], depth);
      Ok([first] + rest)
  }

  function RenderComparison(left: string, j: Json, depth: nat): Rendered<string>
    requires j.JDict?
    decreases j, 2
  {
    if Find(j.fields, "op").None? then Ok(left)
    else
      var op := Find(j.fields, "op").value;
      if !op.JText? || Operator(op.s).None? then Bad(Malformed)
      else if Find(j.fields, "value").None? then Bad(Malformed)
      else
        var right :- RenderValue(Find(j.fields, "value").value, depth + 1);
        Ok(left + " " + op.s + " " + right)
  }

  function RenderValue(j: Json, depth: nat): Rendered<string>
    decreases j, 1
  {
    if depth > MAX_STRUCTURED_DEPTH then Bad(TooDeep)
    else if j.JDict? then
      if Find(j.fields, "call").Some? then RenderCall(j, depth)
      else if Find(j.fields, "fact").Some? then Identifier(Find(j.fields, "fact").value)
      else Bad(Malformed)
    else Literal(j, depth)
  }

  function Args(fs: seq<Field>): (r: Rendered<seq<Field>>)
    ensures r.Ok? && r.v != [] ==> (fs decreases to r.v)
  {
    var args := Find(fs, "args");
    if args.None? then Ok([])
    else if !args.value.JDict? then Bad(Malformed)
    else Ok(args.value.fields)
  }

  function Positional(fs: seq<Field>): (r: Rendered<seq<Json>>)
    ensures r.Ok? && r.v != [] ==> (fs decreases to r.v)
  {
    var positional := Find(fs, "positional");
    if positional.None? then Ok([])
    else if !positional.value.JList? then Bad(Malformed)
    else Ok(positional.value.items)
  }

  function RenderCall(j: Json, depth: nat): Rendered<string>
    requires j.JDict? && Find(j.fields, "call").Some?
    decreases j, 0
  {
    if depth > MAX_STRUCTURED_DEPTH then Bad(TooDeep)
    else
      var name :- Identifier(Find(j.fields, "call").value);
      var args :- Args(j.fields);
      var named :- if args == [] then Ok([]) else RenderArgs(args, depth);
      var positional :- Positional(j.fields);
      var values :- if positional == [] then Ok([]) else RenderValues(positional, depth + 1);
      Ok(name + "(" + Join(values + named, ", ") + ")")
  }

  /** One `key=value`; a nested object is a call or a fact, and plain values start
      again at depth zero. */
  function RenderArg(f: Field, depth: nat): Rendered<string>
    decreases f
  {
    var key :- Identifier(JText(f.key));
    var value :- if f.value.JDict? then RenderValue(f.value, depth + 1) else Literal(f.value, 0);
    Ok(key + "=" + value)
  }

  function RenderArgs(fs: seq<Field>, depth: nat): Rendered<seq<string>>
    decreases fs
  {
    if fs == [] then Ok([])
    else
      var first :- RenderArg(fs[0], depth);
      var rest :- RenderArgs(fs[1..], depth);
      Ok([first] + rest)
  }

  function RenderValues(js: seq<Json>, depth: nat): Rendered<seq<string>>
    decreases js
  {
    if js == [] then Ok([])
    else
      var first :- RenderValue(js[0], depth);
      var rest :- RenderValues(js[1..], depth);
      Ok([first] + rest)
  }

  /** The loop of `_render_call` that collects the keyword arguments. */
  method CollectArgs(fs: seq<Field>, depth: nat) returns (r: Rendered<seq<string>>)
    ensures r == RenderArgs(fs, depth)
  {
    var rendered: seq<string> := [];
    assert fs[0..] == fs;
    assert RenderArgs(fs, depth).Ok? ==> [] + RenderArgs(fs, depth).v == RenderArgs(fs, depth).v;
    for i := 0 to |fs|
      invariant RenderArgs(fs, depth) == After(rendered, RenderArgs(fs[i..], depth))
    {
      var part := RenderArg(fs[i], depth);
      if part.Bad? {
        return Bad(part.error);
      }
      assert fs[i..][1..] == fs[i + 1..];
      var rest := RenderArgs(fs[i + 1..], depth);
      assert rest.Ok? ==> rendered + ([part.v] + rest.v) == (rendered + [part.v]) + rest.v;
      rendered := rendered + [part.v];
    }
    assert rendered + [] == rendered;
    r := Ok(rendered);
  }

  ghost function After(done: seq<string>, rest: Rendered<seq<string>>): Rendered<seq<string>> {
    if rest.Bad? then rest else Ok(done + rest.v)
  }

  function ToExpression(j: Json): Rendered<string> {
    var text :- Render(j, true, 0);
    if |text| > MAX_SOURCE_CHARS then Bad(TooMuchInput) else Ok(text)
  }

  // -------------------------------------------------- what the builder means

  const NOT_A_RULE := CannotEvaluate("structured")

  /** The truth of a structured rule, read off the structure itself. */
  function Meaning(j: Json, c: Context): Outcome<bool>
    decreases j, 3
  {
    if !j.JDict? then RuleErr(NOT_A_RULE)
    else if Find(j.fields, "all").Some? then
      var parts := Find(j.fields, "all").value;
      if parts.JList? then EveryPart(parts.items, c) else RuleErr(NOT_A_RULE)
    else if Find(j.fields, "any").Some? then
      var parts := Find(j.fields, "any").value;
      if parts.JList? then SomePart(parts.items, c) else RuleErr(NOT_A_RULE)
    else if Find(j.fields, "not").Some? then
      var inner :- Meaning(Find(j.fields, "not").value, c);
      Val(!inner)
    else
      var left :- Subject(j, c);
      if Find(j.fields, "op").None? then Val(Truthy(left))
      else if Find(j.fields, "value").None? then RuleErr(NOT_A_RULE)
      else
        var op := Find(j.fields, "op").value;
        var right :- ValueMeaning(Find(j.fields, "value").value, c);
        if op.JText? && Operator(op.s).Some? then ApplyCompare(Operator(op.s).value, left, right)
        else RuleErr(NOT_A_RULE)
  }

  function EveryPart(parts: seq<Json>, c: Context): Outcome<bool>
    decreases parts
  {
    if parts == [] then Val(true)
    else
      var first :- Meaning(parts[0], c);
      if !first then Val(false) else EveryPart(parts[1..], c)
  }

  function SomePart(parts: seq<Json>, c: Context): Outcome<bool>
    decreases parts
  {
    if parts == [] then Val(false)
    else
      var first :- Meaning(parts[0], c);
      if first then Val(true) else SomePart(parts[1..], c)
  }

  /** The call or fact a leaf talks about. */
  function Subject(j: Json, c: Context): Outcome<Value>
    requires j.JDict?
    decreases j, 1
  {
    if Find(j.fields, "call").Some? then CallMeaning(j, c)
    else if Find(j.fields, "fact").Some? then FactMeaning(Find(j.fields, "fact").value, c)
    else RuleErr(NOT_A_RULE)
  }

  function FactMeaning(j: Json, c: Context): Outcome<Value> {
    if !j.JText? then RuleErr(NOT_A_RULE)
    else if j.s in c.facts then Val(c.facts[j.s])
    else RuleErr(UnknownFact(j.s))
  }

  function ValueMeaning(j: Json, c: Context): Outcome<Value>
    decreases j, 2
  {
    match j
    case JInt(n) => Val(Int(n))
    case JText(s) => Val(Text(s))
    case JList(items) =>
      var vs :- ValueMeanings(items, c);
      Val(Tuple(vs))
    case JDict(_) => Subject(j, c)
    case _ => RuleErr(NOT_A_RULE)
  }

  function ValueMeanings(js: seq<Json>, c: Context): Outcome<seq<Value>>
    decreases js
  {
    if js == [] then Val([])
    else
      var first :- ValueMeaning(js[0], c);
      var rest :- ValueMeanings(js[1..], c);
      Val([first] + rest)
  }

  function ArgMeanings(fs: seq<Field>, c: Context): Outcome<Kwargs>
    decreases fs
  {
    if fs == [] then Val([])
    else
      assert (fs decreases to fs[0]);
      var first :- ValueMeaning(fs[0].value, c);
      var rest :- ArgMeanings(fs[1..], c);
      Val([(fs[0].key, first)] + rest)
  }

  function CallMeaning(j: Json, c: Context): Outcome<Value>
    requires j.JDict? && Find(j.fields, "call").Some?
    decreases j, 0
  {
    var name, args, positional := Find(j.fields, "call").value, Args(j.fields), Positional(j.fields);
    if !name.JText? || args.Bad? || positional.Bad? then RuleErr(NOT_A_RULE)
    else if name.s !in c.functions then RuleErr(NotAvailable(name.s))
    else
      var xs :- if positional.v == [] then Val([]) else ValueMeanings(positional.v, c);
      var ks :- if args.v == [] then Val([]) else ArgMeanings(args.v, c);
      c.functions[name.s](xs, ks)
  }
}
