/** Rendered text before the guards of the parser: how deep it nests, and exactly
    when it gets through to a tree. */
module GuardedText {
  import opened Values
  import opened Syntax
  import opened Decimal
  import opened Validator
  import opened Interpretation
  import opened Structured
  import opened RuleText
  import opened Printing
  import opened ParsingBack
  import opened RoundTrip
  import Scanner

  const LIMIT := Scanner.MAX_NESTING_DEPTH

  // ---------------------------------------------------------------- how deep

  function Max(a: nat, b: nat): nat {
    if a < b then b else a
  }

  function Greatest(ns: seq<nat>): nat {
    if ns == [] then 0 else Max(ns[0], Greatest(ns[1..]))
  }

  /** The brackets open at once in the print of an operand. */
  function OperandDepth(e: Expr): nat
    decreases e
  {
    match e
    case ListLit(elts) => 1 + Greatest(OperandDepths(elts))
    case Call(_, args, ks) => 1 + Greatest(OperandDepths(args) + KeywordDepths(ks))
    case _ => 0
  }

  function OperandDepths(es: seq<Expr>): (r: seq<nat>)
    ensures |r| == |es|
    decreases es
  {
    if es == [] then [] else [OperandDepth(es[0])] + OperandDepths(es[1..])
  }

  function KeywordDepth(k: Keyword): nat
    decreases k
  {
    OperandDepth(k.value)
  }

  function KeywordDepths(ks: seq<Keyword>): (r: seq<nat>)
    ensures |r| == |ks|
    decreases ks
  {
    if ks == [] then [] else [KeywordDepth(ks[0])] + KeywordDepths(ks[1..])
  }

  /** The brackets open at once in the print of a rule. */
  function RuleDepth(e: Expr, bare: bool): nat
    decreases e
  {
    match e
    case BoolOp(_, values) => (if bare then 0 else 1) + Greatest(RuleDepths(values))
    case UnaryOp(op, x) => if op == Not then 1 + RuleDepth(x, false) else 0
    case Compare(left, links) => if |links| != 1 then 0 else Max(OperandDepth(left), OperandDepth(links[0].operand))
    case _ => OperandDepth(e)
  }

  function RuleDepths(es: seq<Expr>): (r: seq<nat>)
    ensures |r| == |es|
    decreases es
  {
    if es == [] then [] else [RuleDepth(es[0], false)] + RuleDepths(es[1..])
  }

  // ------------------------------------------------- scanning, piece by piece

  // The following holds of any scan of text from a depth and a run of operators;
  // `Scanner.Scan` is put in at the end.

  type Scanning = (string, int, int) -> Scanner.Verdict

  /** The scan goes on with the rest, at most one operator behind it. */
  predicate GoesOn(scan: Scanning, v: Scanner.Verdict, rest: string, d: int) {
    v == scan(rest, d, 0) || v == scan(rest, d, 1)
  }

  /** The text needs this many more brackets: with room for them the scan passes it,
      and without it stops. */
  ghost predicate Needs(scan: Scanning, text: string, n: nat) {
    forall rest, d | Ends(rest) && 0 <= d <= LIMIT ::
      if d + n <= LIMIT then GoesOn(scan, scan(text + rest, d, 0), rest, d)
      else scan(text + rest, d, 0) == Scanner.TooDeep
  }

  /** The text opens nothing and ends any run of operators. */
  ghost predicate Settles(scan: Scanning, text: string) {
    forall rest, d, run | 0 <= d <= LIMIT && 0 <= run <= 1 :: scan(text + rest, d, run) == scan(rest, d, 0)
  }

  ghost predicate Opens(scan: Scanning, text: string) {
    forall rest, d, run | 0 <= d <= LIMIT && 0 <= run <= 1 ::
      scan(text + rest, d, run) == if d + 1 <= LIMIT then scan(rest, d + 1, 0) else Scanner.TooDeep
  }

  ghost predicate Closes(scan: Scanning, text: string) {
    forall rest, d, run | 1 <= d <= LIMIT && 0 <= run <= 1 :: scan(text + rest, d, run) == scan(rest, d - 1, 0)
  }

  /** The word is passed wherever a name may end. */
  ghost predicate PassesWord(scan: Scanning, w: string) {
    forall rest, d | NameEnds(rest) && 0 <= d <= LIMIT :: GoesOn(scan, scan(w + rest, d, 0), rest, d)
  }

  lemma {:induction false} NeedsNothing(scan: Scanning)
    ensures Needs(scan, "", 0)
  {
    forall rest, d | Ends(rest) && 0 <= d <= LIMIT ensures GoesOn(scan, scan("" + rest, d, 0), rest, d) {
      assert "" + rest == rest;
    }
  }

  lemma {:induction false} WordNeedsNothing(scan: Scanning, w: string)
    requires PassesWord(scan, w)
    ensures Needs(scan, w, 0)
  {
    assert forall rest | Ends(rest) :: NameEnds(rest);
  }

  lemma {:induction false} NeedsBoth(scan: Scanning, a: string, m: nat, sep: string, b: string, n: nat)
    requires Needs(scan, a, m) && Needs(scan, b, n) && Settles(scan, sep) && sep != "" && Ends(sep)
    ensures Needs(scan, a + sep + b, Max(m, n))
  {
    forall rest, d | Ends(rest) && 0 <= d <= LIMIT
      ensures if d + Max(m, n) <= LIMIT then GoesOn(scan, scan(a + sep + b + rest, d, 0), rest, d)
              else scan(a + sep + b + rest, d, 0) == Scanner.TooDeep
    {
      var after := sep + (b + rest);
      assert a + sep + b + rest == a + after && after[0] == sep[0];
      if d + m <= LIMIT {
        assert GoesOn(scan, scan(a + after, d, 0), after, d);
        assert scan(after, d, 0) == scan(b + rest, d, 0) && scan(after, d, 1) == scan(b + rest, d, 0);
      }
    }
  }

  lemma {:induction false} NeedsOneMore(scan: Scanning, open: string, body: string, n: nat, close: string)
    requires Opens(scan, open) && Needs(scan, body, n) && Closes(scan, close) && close != "" && Ends(close)
    ensures forall rest, d, run | 0 <= d <= LIMIT && 0 <= run <= 1 ::
              scan(open + body + close + rest, d, run)
              == if d + n + 1 <= LIMIT then scan(rest, d, 0) else Scanner.TooDeep
    ensures Needs(scan, open + body + close, n + 1)
  {
    forall rest, d, run | 0 <= d <= LIMIT && 0 <= run <= 1
      ensures scan(open + body + close + rest, d, run)
           == if d + n + 1 <= LIMIT then scan(rest, d, 0) else Scanner.TooDeep
    {
      var after := close + rest;
      assert open + body + close + rest == open + (body + after) && after[0] == close[0];
      if d + n + 1 <= LIMIT {
        assert GoesOn(scan, scan(body + after, d + 1, 0), after, d + 1);
        assert scan(after, d + 1, 0) == scan(rest, d, 0) && scan(after, d + 1, 1) == scan(rest, d, 0);
      }
    }
  }

  lemma {:induction false} NeedsGreatest(scan: Scanning, texts: seq<string>, ns: seq<nat>, sep: string)
    requires |texts| == |ns| && Settles(scan, sep) && sep != "" && Ends(sep)
    requires forall i | 0 <= i < |texts| :: Needs(scan, texts[i], ns[i])
    ensures Needs(scan, Join(texts, sep), Greatest(ns))
  {
    if texts == [] {
      NeedsNothing(scan);
    } else if |texts| == 1 {
      assert ns[1..] == [];
    } else {
      NeedsGreatest(scan, texts[1..], ns[1..], sep);
      NeedsBoth(scan, texts[0], ns[0], sep, Join(texts[1..], sep), Greatest(ns[1..]));
    }
  }

  lemma {:induction false} CallNeeds(scan: Scanning, w: string, body: string, n: nat)
    requires PassesWord(scan, w) && Opens(scan, "(") && Closes(scan, ")") && Needs(scan, body, n)
    ensures Needs(scan, w + "(" + body + ")", n + 1)
  {
    NeedsOneMore(scan, "(", body, n, ")");
    forall rest, d | Ends(rest) && 0 <= d <= LIMIT
      ensures if d + (n + 1) <= LIMIT then GoesOn(scan, scan(w + "(" + body + ")" + rest, d, 0), rest, d)
              else scan(w + "(" + body + ")" + rest, d, 0) == Scanner.TooDeep
    {
      var after := "(" + body + ")" + rest;
      assert w + "(" + body + ")" + rest == w + after && after[0] == '(';
      assert GoesOn(scan, scan(w + after, d, 0), after, d);
    }
  }

  lemma {:induction false} KeywordNeeds(scan: Scanning, w: string, text: string, n: nat)
    requires PassesWord(scan, w) && Settles(scan, "=") && Needs(scan, text, n)
    ensures Needs(scan, w + "=" + text, n)
  {
    forall rest, d | Ends(rest) && 0 <= d <= LIMIT
      ensures if d + n <= LIMIT then GoesOn(scan, scan(w + "=" + text + rest, d, 0), rest, d)
              else scan(w + "=" + text + rest, d, 0) == Scanner.TooDeep
    {
      var after := "=" + (text + rest);
      assert w + "=" + text + rest == w + after && after[0] == '=';
      assert GoesOn(scan, scan(w + after, d, 0), after, d);
      assert scan(after, d, 0) == scan(text + rest, d, 0) && scan(after, d, 1) == scan(text + rest, d, 0);
    }
  }

  // ------------------------------------------------------- the scanner's steps

  function ScanWith(u: Scanner.Unicode): Scanning {
    (s: string, d: int, run: int) => Scanner.Scan(u, s, d, run)
  }

  /** A character that neither nests nor negates, unless it starts `not`. */
  predicate Quiet(c: char) {
    IsWordChar(c) || c == ',' || c == '=' || c == '!' || c == '<' || c == '>'
  }

  lemma {:induction false} QuietStep(u: Scanner.Unicode, c: char, rest: string, d: int, run: int)
    requires Quiet(c) && !Scanner.StartsNot(u, [c] + rest) && 0 <= d <= LIMIT
    ensures Scanner.Scan(u, [c] + rest, d, run) == Scanner.Scan(u, rest, d, 0)
  {
    var s := [c] + rest;
    assert s[1..] == rest;
    assert Scanner.Classify(u, s) == Scanner.Plain && Scanner.Width(u, s) == 1;
  }

  lemma {:induction false} SpaceStep(u: Scanner.Unicode, rest: string, d: int, run: int)
    requires 0 <= d <= LIMIT && 0 <= run <= Scanner.MAX_UNARY_RUN
    ensures Scanner.Scan(u, " " + rest, d, run) == Scanner.Scan(u, rest, d, run)
  {
    var s := " " + rest;
    assert s[1..] == rest;
    assert !Scanner.StartsNot(u, s) by { Scanner.StartsHas(s, 0, "not", 0); }
    assert Scanner.Classify(u, s) == Scanner.Space && Scanner.Width(u, s) == 1;
  }

  lemma {:induction false} NotStep(u: Scanner.Unicode, rest: string, d: int, run: int)
    requires 0 <= d <= LIMIT && 0 <= run < Scanner.MAX_UNARY_RUN && Scanner.StartsNot(u, "not" + rest)
    ensures Scanner.Scan(u, "not" + rest, d, run) == Scanner.Scan(u, rest, d, run + 1)
  {
    var s := "not" + rest;
    assert s[3..] == rest && s[0] == 'n';
    assert Scanner.Classify(u, s) == Scanner.Unary && Scanner.Width(u, s) == 3;
  }

  lemma {:induction false} NotThenSpace(u: Scanner.Unicode, rest: string)
    ensures Scanner.StartsNot(u, "not" + (" " + rest))
  {
    var s := "not" + (" " + rest);
    assert s[0..3] == "not" && s[3] == ' ';
  }

  lemma {:induction false} NotWordScans(u: Scanner.Unicode, rest: string, d: int, run: int)
    requires 0 <= d <= LIMIT && 0 <= run < Scanner.MAX_UNARY_RUN
    ensures Scanner.Scan(u, "not" + (" " + rest), d, run) == Scanner.Scan(u, rest, d, run + 1)
  {
    NotThenSpace(u, rest);
    NotStep(u, " " + rest, d, run);
    SpaceStep(u, rest, d, run + 1);
  }

  lemma {:induction false} NotOtherwise(u: Scanner.Unicode, s: string)
    requires s != "" && (s[0] != 'n' || (|s| > 1 && s[1] != 'o'))
    ensures !Scanner.StartsNot(u, s)
  {
    Scanner.StartsHas(s, 0, "not", 0);
    Scanner.StartsHas(s, 0, "not", 1);
  }

  lemma {:induction false} MinusStep(u: Scanner.Unicode, rest: string, d: int)
    requires 0 <= d <= LIMIT
    ensures Scanner.Scan(u, "-" + rest, d, 0) == Scanner.Scan(u, rest, d, 1)
  {
    var s := "-" + rest;
    assert s[1..] == rest;
    assert Scanner.Classify(u, s) == Scanner.Unary && Scanner.Width(u, s) == 1;
  }

  lemma {:induction false} OpenStep(u: Scanner.Unicode, c: char)
    requires c == '(' || c == '['
    ensures Opens(ScanWith(u), [c])
  {
    forall rest, d, run | 0 <= d <= LIMIT && 0 <= run <= 1
      ensures ScanWith(u)([c] + rest, d, run)
           == if d + 1 <= LIMIT then ScanWith(u)(rest, d + 1, 0) else Scanner.TooDeep
    {
      var s := [c] + rest;
      assert s[1..] == rest;
      assert Scanner.Classify(u, s) == Scanner.Open && Scanner.Width(u, s) == 1;
    }
  }

  lemma {:induction false} CloseStep(u: Scanner.Unicode, c: char)
    requires c == ')' || c == ']'
    ensures Closes(ScanWith(u), [c])
  {
    forall rest, d, run | 1 <= d <= LIMIT && 0 <= run <= 1
      ensures ScanWith(u)([c] + rest, d, run) == ScanWith(u)(rest, d - 1, 0)
    {
      var s := [c] + rest;
      assert s[1..] == rest;
      assert Scanner.Classify(u, s) == Scanner.Close && Scanner.Width(u, s) == 1;
    }
  }

  // -------------------------------------------------------- words and literals

  lemma {:induction false} NotIsLast(u: Scanner.Unicode, w: string, rest: string)
    requires w != "" && (forall i | 0 <= i < |w| :: IsWordChar(w[i])) && NameEnds(rest)
    requires Scanner.StartsNot(u, w + rest)
    ensures w == "not"
  {
    var s := w + rest;
    assert s[0..3] == "not" && s[0] == 'n' && s[1] == 'o' && s[2] == 't';
    if |w| == 3 {
      assert s[0..3] == w;
    }
  }

  /** A word's characters are passed one by one, except that a final `not` counts. */
  lemma {:induction false} WordScans(u: Scanner.Unicode, w: string, rest: string, d: int)
    requires (forall i | 0 <= i < |w| :: IsWordChar(w[i])) && NameEnds(rest) && 0 <= d <= LIMIT
    ensures GoesOn(ScanWith(u), Scanner.Scan(u, w + rest, d, 0), rest, d)
  {
    if w == "" {
      assert w + rest == rest;
    } else if Scanner.StartsNot(u, w + rest) {
      NotIsLast(u, w, rest);
      NotStep(u, rest, d, 0);
    } else {
      assert w + rest == [w[0]] + (w[1..] + rest);
      QuietStep(u, w[0], w[1..] + rest, d, 0);
      WordScans(u, w[1..], rest, d);
    }
  }

  lemma {:induction false} WordPasses(u: Scanner.Unicode, w: string)
    requires forall i | 0 <= i < |w| :: IsWordChar(w[i])
    ensures PassesWord(ScanWith(u), w) && Needs(ScanWith(u), w, 0)
  {
    forall rest, d | NameEnds(rest) && 0 <= d <= LIMIT
      ensures GoesOn(ScanWith(u), ScanWith(u)(w + rest, d, 0), rest, d)
    {
      WordScans(u, w, rest, d);
    }
    WordNeedsNothing(ScanWith(u), w);
  }

  lemma {:induction false} DigitsAreWord(n: nat)
    ensures Digits(n) != "" && IsDigit(Digits(n)[0]) && forall i | 0 <= i < |Digits(n)| :: IsWordChar(Digits(n)[i])
  {
    DigitsShape(n);
  }

  lemma {:induction false} NegativeScans(u: Scanner.Unicode, w: string, rest: string, d: int)
    requires w != "" && IsDigit(w[0]) && forall i | 0 <= i < |w| :: IsWordChar(w[i])
    requires NameEnds(rest) && 0 <= d <= LIMIT
    ensures GoesOn(ScanWith(u), Scanner.Scan(u, "-" + w + rest, d, 0), rest, d)
  {
    var later := w[1..] + rest;
    assert "-" + w + rest == "-" + (w + rest) && w + rest == [w[0]] + later;
    MinusStep(u, w + rest, d);
    NotOtherwise(u, [w[0]] + later);
    QuietStep(u, w[0], later, d, 1);
    WordScans(u, w[1..], rest, d);
  }

  lemma {:induction false} NegativeNeeds(u: Scanner.Unicode, n: nat)
    ensures Needs(ScanWith(u), "-" + Digits(n), 0)
  {
    DigitsAreWord(n);
    forall rest, d | Ends(rest) && 0 <= d <= LIMIT
      ensures GoesOn(ScanWith(u), ScanWith(u)("-" + Digits(n) + rest, d, 0), rest, d)
    {
      NegativeScans(u, Digits(n), rest, d);
    }
  }

  lemma {:induction false} EmptyLiteral(u: Scanner.Unicode, rest: string)
    requires rest == "" || rest[0] != '\''
    ensures var s := "''" + rest; Scanner.Classify(u, s) == Scanner.Literal && Scanner.Width(u, s) == 2
  {
    var s := "''" + rest;
    Scanner.StartsHas(s, 0, "'''", 2);
    Scanner.CloseAfter(s, '\'', 1, 1);
  }

  lemma {:induction false} TextNeeds(u: Scanner.Unicode, t: string)
    requires SafeText(t)
    ensures Needs(ScanWith(u), "'" + t + "'", 0)
  {
    forall rest, d | Ends(rest) && 0 <= d <= LIMIT
      ensures GoesOn(ScanWith(u), ScanWith(u)("'" + t + "'" + rest, d, 0), rest, d)
    {
      var s := "'" + t + "'" + rest;
      if t == "" {
        assert s == "''" + rest && s[2..] == rest;
        EmptyLiteral(u, rest);
      } else {
        Scanner.LiteralWidth(u, '\'', t, rest);
        assert s == ['\''] + t + ['\''] + rest;
      }
    }
  }

  // --------------------------------------------------------------- separators

  lemma {:induction false} OneQuiet(u: Scanner.Unicode, c: char)
    requires Quiet(c) && c != 'n'
    ensures Settles(ScanWith(u), [c])
  {
    forall rest, d, run | 0 <= d <= LIMIT && 0 <= run <= 1
      ensures ScanWith(u)([c] + rest, d, run) == ScanWith(u)(rest, d, 0)
    {
      NotOtherwise(u, [c] + rest);
      QuietStep(u, c, rest, d, run);
    }
  }

  lemma {:induction false} SettledTwice(scan: Scanning, a: string, b: string)
    requires Settles(scan, a) && Settles(scan, b)
    ensures Settles(scan, a + b)
  {
    forall rest, d, run | 0 <= d <= LIMIT && 0 <= run <= 1 ensures scan(a + b + rest, d, run) == scan(rest, d, 0) {
      assert a + b + rest == a + (b + rest);
    }
  }

  /** Space before and after what settles changes nothing. */
  lemma {:induction false} Spaced(u: Scanner.Unicode, text: string)
    requires Settles(ScanWith(u), text)
    ensures Settles(ScanWith(u), text + " ") && Settles(ScanWith(u), " " + text + " ")
  {
    forall rest, d, run | 0 <= d <= LIMIT && 0 <= run <= 1
      ensures ScanWith(u)(text + " " + rest, d, run) == ScanWith(u)(rest, d, 0)
      ensures ScanWith(u)(" " + text + " " + rest, d, run) == ScanWith(u)(rest, d, 0)
    {
      assert text + " " + rest == text + (" " + rest);
      SpaceStep(u, rest, d, 0);
      assert " " + text + " " + rest == " " + (text + " " + rest);
      SpaceStep(u, text + " " + rest, d, run);
    }
  }

  lemma {:induction false} AndScans(u: Scanner.Unicode, rest: string, d: int, run: int)
    requires 0 <= d <= LIMIT
    ensures Scanner.Scan(u, "and" + rest, d, run) == Scanner.Scan(u, rest, d, 0)
  {
    var a, b := "nd" + rest, "d" + rest;
    assert "and" + rest == ['a'] + a && a == ['n'] + b && b == ['d'] + rest;
    NotOtherwise(u, ['a'] + a);
    QuietStep(u, 'a', a, d, run);
    NotOtherwise(u, ['n'] + b);
    QuietStep(u, 'n', b, d, 0);
    NotOtherwise(u, ['d'] + rest);
    QuietStep(u, 'd', rest, d, 0);
  }

  lemma {:induction false} AndSettles(u: Scanner.Unicode)
    ensures Settles(ScanWith(u), " and ")
  {
    forall rest, d, run | 0 <= d <= LIMIT && 0 <= run <= 1
      ensures ScanWith(u)("and" + rest, d, run) == ScanWith(u)(rest, d, 0)
    {
      AndScans(u, rest, d, run);
    }
    Spaced(u, "and");
    assert " " + "and" + " " == " and ";
  }

  lemma {:induction false} OrSettles(u: Scanner.Unicode)
    ensures Settles(ScanWith(u), " or ")
  {
    OneQuiet(u, 'o');
    OneQuiet(u, 'r');
    SettledTwice(ScanWith(u), "o", "r");
    assert "o" + "r" == "or";
    Spaced(u, "or");
    assert " " + "or" + " " == " or ";
  }

  lemma {:induction false} CommaSettles(u: Scanner.Unicode)
    ensures Settles(ScanWith(u), ", ")
  {
    OneQuiet(u, ',');
    Spaced(u, ",");
    assert "," + " " == ", ";
  }

  lemma {:induction false} InSpelled(rest: string)
    ensures " in " + rest == " " + ("in " + rest)
  {
  }

  lemma {:induction false} SpacedInScans(u: Scanner.Unicode, a: string, rest: string, d: int, run: int)
    requires 0 <= d <= LIMIT && 0 <= run <= 1 && a == "in " + rest
    ensures Scanner.Scan(u, " " + a, d, run) == Scanner.Scan(u, rest, d, 0)
  {
    SpaceStep(u, a, d, run);
    InScans(u, rest, d, run);
  }

  lemma {:induction false} InSettles(u: Scanner.Unicode)
    ensures Settles(ScanWith(u), " in ")
  {
    forall rest, d, run | 0 <= d <= LIMIT && 0 <= run <= 1
      ensures ScanWith(u)(" in " + rest, d, run) == ScanWith(u)(rest, d, 0)
    {
      SpacedInScans(u, "in " + rest, rest, d, run);
      InSpelled(rest);
    }
  }

  lemma {:induction false} InScans(u: Scanner.Unicode, rest: string, d: int, run: int)
    requires 0 <= d <= LIMIT && 0 <= run <= 2
    ensures Scanner.Scan(u, "in " + rest, d, run) == Scanner.Scan(u, rest, d, 0)
  {
    var a, b := "n " + rest, " " + rest;
    assert "in " + rest == ['i'] + a && a == ['n'] + b;
    NotOtherwise(u, ['i'] + a);
    QuietStep(u, 'i', a, d, run);
    NotOtherwise(u, ['n'] + b);
    QuietStep(u, 'n', b, d, 0);
    SpaceStep(u, rest, d, 0);
  }

  lemma {:induction false} NotInSpelled(rest: string)
    ensures " not in " + rest == " " + ("not" + (" " + ("in " + rest)))
  {
  }

  lemma {:induction false} NotInScans(u: Scanner.Unicode, a: string, rest: string, d: int, run: int)
    requires 0 <= d <= LIMIT && 0 <= run <= 1 && a == "in " + rest
    ensures Scanner.Scan(u, " " + ("not" + (" " + a)), d, run) == Scanner.Scan(u, rest, d, 0)
  {
    SpaceStep(u, "not" + (" " + a), d, run);
    NotWordScans(u, a, d, run);
    InScans(u, rest, d, run + 1);
  }

  lemma {:induction false} NotInSettles(u: Scanner.Unicode)
    ensures Settles(ScanWith(u), " not in ")
  {
    forall rest, d, run | 0 <= d <= LIMIT && 0 <= run <= 1
      ensures ScanWith(u)(" not in " + rest, d, run) == ScanWith(u)(rest, d, 0)
    {
      NotInSpelled(rest);
      NotInScans(u, "in " + rest, rest, d, run);
    }
  }

  lemma {:induction false} SymbolsSettle(u: Scanner.Unicode, op: CmpOperator)
    requires CmpAllowed(op) && op != In && op != NotIn
    ensures Settles(ScanWith(u), OpText(op))
  {
    OneQuiet(u, '=');
    OneQuiet(u, '!');
    OneQuiet(u, '<');
    OneQuiet(u, '>');
    SettledTwice(ScanWith(u), "=", "=");
    SettledTwice(ScanWith(u), "!", "=");
    SettledTwice(ScanWith(u), "<", "=");
    SettledTwice(ScanWith(u), ">", "=");
    assert "=" + "=" == "==" && "!" + "=" == "!=" && "<" + "=" == "<=" && ">" + "=" == ">=";
  }

  lemma {:induction false} OperatorSettles(u: Scanner.Unicode, op: CmpOperator)
    requires CmpAllowed(op)
    ensures Settles(ScanWith(u), " " + OpText(op) + " ")
  {
    if op == In {
      InSettles(u);
      assert " " + OpText(In) + " " == " in ";
    } else if op == NotIn {
      NotInSettles(u);
      assert " " + OpText(NotIn) + " " == " not in ";
    } else {
      SymbolsSettle(u, op);
      Spaced(u, OpText(op));
    }
  }

  lemma {:induction false} OpenScans(u: Scanner.Unicode, rest: string, d: int, run: int)
    requires 0 <= d <= LIMIT
    ensures Scanner.Scan(u, "(" + rest, d, run)
         == if d + 1 <= LIMIT then Scanner.Scan(u, rest, d + 1, 0) else Scanner.TooDeep
  {
    var s := "(" + rest;
    assert s[1..] == rest;
    assert Scanner.Classify(u, s) == Scanner.Open && Scanner.Width(u, s) == 1;
  }

  lemma {:induction false} NotOpenScans(u: Scanner.Unicode, rest: string, d: int, run: int)
    requires 0 <= d <= LIMIT && 0 <= run <= 1
    ensures Scanner.Scan(u, "not (" + rest, d, run)
         == if d + 1 <= LIMIT then Scanner.Scan(u, rest, d + 1, 0) else Scanner.TooDeep
  {
    var a := "(" + rest;
    assert "not (" + rest == "not" + (" " + a);
    NotWordScans(u, a, d, run);
    OpenScans(u, rest, d, run + 1);
  }

  lemma {:induction false} NotOpens(u: Scanner.Unicode)
    ensures Opens(ScanWith(u), "not (")
  {
    forall rest, d, run | 0 <= d <= LIMIT && 0 <= run <= 1
      ensures ScanWith(u)("not (" + rest, d, run)
           == if d + 1 <= LIMIT then ScanWith(u)(rest, d + 1, 0) else Scanner.TooDeep
    {
      NotOpenScans(u, rest, d, run);
    }
  }

  // ------------------------------------------------------------- printed rules

  lemma {:induction false} OperandNeeds(u: Scanner.Unicode, e: Expr)
    requires DrawnOperand(e)
    ensures Needs(ScanWith(u), OperandText(e), OperandDepth(e))
    decreases e
  {
    match e
    case Name(id) => WordPasses(u, id);
    case Const(v) =>
      if v.Int? {
        DigitsAreWord(v.n);
        WordPasses(u, Digits(v.n));
      } else {
        TextNeeds(u, v.s);
      }
    case UnaryOp(_, x) => NegativeNeeds(u, x.value.n);
    case ListLit(elts) =>
      OperandsNeed(u, elts);
      CommaSettles(u);
      NeedsGreatest(ScanWith(u), OperandTexts(elts), OperandDepths(elts), ", ");
      OpenStep(u, '[');
      CloseStep(u, ']');
      NeedsOneMore(ScanWith(u), "[", Join(OperandTexts(elts), ", "), Greatest(OperandDepths(elts)), "]");
    case Call(f, args, ks) =>
      OperandsNeed(u, args);
      KeywordsNeed(u, ks);
      CommaSettles(u);
      var texts, depths := OperandTexts(args) + KeywordTexts(ks), OperandDepths(args) + KeywordDepths(ks);
      NeedsGreatest(ScanWith(u), texts, depths, ", ");
      WordPasses(u, f.id);
      OpenStep(u, '(');
      CloseStep(u, ')');
      CallNeeds(ScanWith(u), f.id, Join(texts, ", "), Greatest(depths));
  }

  lemma {:induction false} OperandsNeed(u: Scanner.Unicode, es: seq<Expr>)
    requires forall i | 0 <= i < |es| :: DrawnOperand(es[i])
    ensures forall i | 0 <= i < |es| :: Needs(ScanWith(u), OperandTexts(es)[i], OperandDepths(es)[i])
    decreases es
  {
    if es != [] {
      OperandNeeds(u, es[0]);
      OperandsNeed(u, es[1..]);
    }
  }

  lemma {:induction false} KeywordsNeed(u: Scanner.Unicode, ks: seq<Keyword>)
    requires forall i | 0 <= i < |ks| :: DrawnKeyword(ks[i])
    ensures forall i | 0 <= i < |ks| :: Needs(ScanWith(u), KeywordTexts(ks)[i], KeywordDepths(ks)[i])
    decreases ks
  {
    if ks != [] {
      assert (ks decreases to ks[0]);
      OperandNeeds(u, ks[0].value);
      WordPasses(u, ks[0].arg.value);
      OneQuiet(u, '=');
      KeywordNeeds(ScanWith(u), ks[0].arg.value, OperandText(ks[0].value), OperandDepth(ks[0].value));
      KeywordsNeed(u, ks[1..]);
    }
  }

  lemma {:induction false} ComparisonNeeds(u: Scanner.Unicode, left: Expr, op: CmpOperator, right: Expr)
    requires DrawnOperand(left) && DrawnOperand(right) && CmpAllowed(op)
    ensures Needs(ScanWith(u), OperandText(left) + " " + OpText(op) + " " + OperandText(right),
                  Max(OperandDepth(left), OperandDepth(right)))
  {
    var sep := " " + OpText(op) + " ";
    OperandNeeds(u, left);
    OperandNeeds(u, right);
    OperatorSettles(u, op);
    NeedsBoth(ScanWith(u), OperandText(left), OperandDepth(left), sep, OperandText(right), OperandDepth(right));
    assert OperandText(left) + sep + OperandText(right)
        == OperandText(left) + " " + OpText(op) + " " + OperandText(right);
  }

  lemma {:induction false} RuleNeeds(u: Scanner.Unicode, e: Expr, bare: bool)
    requires Drawn(e)
    ensures Needs(ScanWith(u), RuleOf(e, bare), RuleDepth(e, bare))
    decreases e
  {
    match e
    case BoolOp(op, values) =>
      RulesNeed(u, values);
      AndSettles(u);
      OrSettles(u);
      var sep := " " + Joiner(op) + " ";
      assert sep == if op == And then " and " else " or ";
      NeedsGreatest(ScanWith(u), RuleTexts(values), RuleDepths(values), sep);
      OpenStep(u, '(');
      CloseStep(u, ')');
      NeedsOneMore(ScanWith(u), "(", Join(RuleTexts(values), sep), Greatest(RuleDepths(values)), ")");
    case UnaryOp(op, x) =>
      if op == Not {
        RuleNeeds(u, x, false);
        NotOpens(u);
        CloseStep(u, ')');
        NeedsOneMore(ScanWith(u), "not (", RuleOf(x, false), RuleDepth(x, false), ")");
      } else {
        OperandNeeds(u, e);
      }
    case Compare(left, links) => ComparisonNeeds(u, left, links[0].op, links[0].operand);
    case _ => OperandNeeds(u, e);
  }

  lemma {:induction false} RulesNeed(u: Scanner.Unicode, es: seq<Expr>)
    requires forall i | 0 <= i < |es| :: Drawn(es[i])
    ensures forall i | 0 <= i < |es| :: Needs(ScanWith(u), RuleTexts(es)[i], RuleDepths(es)[i])
    decreases es
  {
    if es != [] {
      RuleNeeds(u, es[0], false);
      RulesNeed(u, es[1..]);
    }
  }

  /** The guard accepts a printed rule exactly when it nests at most 20 deep, and has
      no other objection to one. */
  lemma {:induction false} PrintedScans(u: Scanner.Unicode, e: Expr, bare: bool)
    requires Drawn(e)
    ensures Scanner.Scan(u, RuleOf(e, bare), 0, 0)
         == if RuleDepth(e, bare) <= LIMIT then Scanner.Accepted else Scanner.TooDeep
  {
    RuleNeeds(u, e, bare);
    var text := RuleOf(e, bare);
    assert text + "" == text;
    assert Ends("");
    assert ScanWith(u)(text + "", 0, 0) == Scanner.Scan(u, text, 0, 0);
  }

  // ------------------------------------------------------------- the pipeline

  /** `parse`: the length and the guard, the grammar, the node ceiling. Blanks at either
      end, which the source strips, are skipped by the lexer. */
  function Parse(u: Scanner.Unicode, text: string): Option<Expr> {
    if |text| > MAX_SOURCE_CHARS || Scanner.Scan(u, text, 0, 0) != Scanner.Accepted then None
    else
      var tree := ParseText(text);
      if tree.Some? && !WithinNodeCeiling(tree.value) then None else tree
  }

  /** What a rendered rule must keep to. */
  ghost predicate Presentable(j: Json) {
    var tree := RuleTree(j);
    Unreserved(tree) && RuleDepth(tree, Bare(j, true)) <= 20 && 1 + Nodes(tree) <= 200
  }

  /** The text a structure renders to comes through the whole of `parse` as the rule
      drawn exactly when no name in it is reserved, it nests at most 20 deep and has
      at most 200 nodes. */
  lemma {:induction false} RenderedTextParsesIff(u: Scanner.Unicode, j: Json, text: string)
    requires ToExpression(j) == Ok(text)
    ensures Parse(u, text) == Some(RuleTree(j)) <==> Presentable(j)
  {
    RulePrints(j, true, 0);
    PrintedScans(u, RuleTree(j), Bare(j, true));
    RenderedTextReadsBackIff(j, text);
  }

  /** And it is then interpreted, under the step budget, to what the structure means. */
  lemma {:induction false} RenderedRuleRuns(u: Scanner.Unicode, j: Json, text: string, c: Context)
    requires ToExpression(j) == Ok(text) && Presentable(j)
    ensures Parse(u, text).Some?
    ensures Truth(Run(Parse(u, text).value, c, MAX_STEPS, 0).out) == Meaning(j, c)
  {
    RenderedTextParsesIff(u, j, text);
    RuleMeans(j, true, 0, c);
    BudgetUnreachable(RuleTree(j), c);
  }

  // ------------------------------------------- renders, and is refused all the same

  /** A call under `n` negations. */
  function Negated(n: nat): Json {
    if n == 0 then JDict([Field("call", JText("f"))]) else JDict([Field("not", Negated(n - 1))])
  }

  lemma {:induction false} OnlyField(key: string, value: Json, other: string)
    ensures Find([Field(key, value)], other) == if key == other then Some(value) else None
  {
    assert [Field(key, value)][1..] == [];
    assert Find([Field(key, value)][1..], other).None?;
  }

  lemma {:induction false} CallRenders(top: bool, depth: nat)
    requires depth <= MAX_STRUCTURED_DEPTH
    ensures Render(Negated(0), top, depth) == Ok("f()") && RuleTree(Negated(0)) == Call(Name("f"), [], [])
  {
    var value := JText("f");
    OnlyField("call", value, "all");
    OnlyField("call", value, "any");
    OnlyField("call", value, "not");
    OnlyField("call", value, "call");
    OnlyField("call", value, "args");
    OnlyField("call", value, "positional");
    OnlyField("call", value, "op");
    assert AsciiIdentifier("f");
    assert "f" + "(" + Join([], ", ") + ")" == "f()";
  }

  lemma {:induction false} NegationRenders(n: nat, top: bool, depth: nat)
    requires depth + n <= MAX_STRUCTURED_DEPTH
    ensures Render(Negated(n), top, depth).Ok? && |Render(Negated(n), top, depth).v| == 6 * n + 3
    ensures forall bare :: RuleDepth(RuleTree(Negated(n)), bare) == n + 1
  {
    if n == 0 {
      CallRenders(top, depth);
    } else {
      var inner := Negated(n - 1);
      OnlyField("not", inner, "all");
      OnlyField("not", inner, "any");
      OnlyField("not", inner, "not");
      NegationRenders(n - 1, false, depth + 1);
    }
  }

  /** The builder's own limit of 20 levels does not see the brackets of a call: a call
      under 20 negations renders, and the guard refuses its text. */
  lemma {:induction false} RendersTooDeep(u: Scanner.Unicode)
    ensures ToExpression(Negated(20)).Ok? && Parse(u, ToExpression(Negated(20)).v) == None
  {
    TooDeepAt(u, 20);
  }

  lemma {:induction false} RefusedAsTooDeep(u: Scanner.Unicode, j: Json, text: string)
    requires ToExpression(j) == Ok(text) && RuleDepth(RuleTree(j), Bare(j, true)) > LIMIT
    ensures Parse(u, text) == None
  {
    RulePrints(j, true, 0);
    PrintedScans(u, RuleTree(j), Bare(j, true));
  }

  lemma {:induction false} TooDeepAt(u: Scanner.Unicode, n: nat)
    requires LIMIT <= n <= MAX_STRUCTURED_DEPTH
    ensures ToExpression(Negated(n)).Ok? && Parse(u, ToExpression(Negated(n)).v) == None
  {
    NegationRenders(n, true, 0);
    RefusedAsTooDeep(u, Negated(n), ToExpression(Negated(n)).v);
  }
}
