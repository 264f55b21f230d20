/** What each construct of a rule computes, in plain arithmetic and logic. */
module Semantics {
  import opened Values
  import opened Syntax
  import opened Arithmetic
  import opened Interpretation

  // ---------------------------------------------------------------- values

  /** Text order: at the first place where they differ, or where one of them ends. */
  ghost predicate TextBefore(a: string, b: string) {
    exists i | 0 <= i <= |a| && i < |b| :: a[..i] == b[..i] && (i == |a| || a[i] < b[i])
  }

  lemma {:induction false} TextLessIff(a: string, b: string)
    ensures TextLess(a, b) <==> TextBefore(a, b)
  {
    if b != "" && (a == "" || a[0] < b[0]) {
      assert a[..0] == b[..0];
    } else if b != "" && a[0] == b[0] {
      TextLessIff(a[1..], b[1..]);
      if TextBefore(a[1..], b[1..]) {
        var i :| 0 <= i <= |a[1..]| && i < |b[1..]| && a[1..][..i] == b[1..][..i]
              && (i == |a[1..]| || a[1..][i] < b[1..][i]);
        assert a[..i + 1] == [a[0]] + a[1..][..i] && b[..i + 1] == [b[0]] + b[1..][..i];
      }
      if i :| 0 <= i <= |a| && i < |b| && a[..i] == b[..i] && (i == |a| || a[i] < b[i]) {
        assert i > 0;
        assert a[1..][..i - 1] == a[..i][1..] && b[1..][..i - 1] == b[..i][1..];
      }
    } else if b != "" {
      forall i | 0 < i <= |a| && i < |b| ensures a[..i] != b[..i] {
        assert a[..i][0] == a[0] && b[..i][0] == b[0];
      }
    }
  }

  /** `needle` stands in `hay` from position `i` on. */
  predicate OccursAt(needle: string, hay: string, i: int) {
    0 <= i <= |hay| - |needle| && hay[i..i + |needle|] == needle
  }

  lemma {:induction false} SubstringIff(needle: string, hay: string)
    ensures Substring(needle, hay) <==> exists i :: OccursAt(needle, hay, i)
    decreases |hay|
  {
    assert OccursAt(needle, hay, 0) <==> needle <= hay;
    if hay != "" {
      SubstringIff(needle, hay[1..]);
      forall i ensures OccursAt(needle, hay[1..], i) ==> OccursAt(needle, hay, i + 1) {
        OccursShifted(needle, hay, i);
      }
      forall i | i != 0 ensures OccursAt(needle, hay, i) ==> OccursAt(needle, hay[1..], i - 1) {
        OccursShifted(needle, hay, i - 1);
      }
    }
  }

  lemma {:induction false} OccursShifted(needle: string, hay: string, i: int)
    requires hay != ""
    ensures i >= 0 ==> (OccursAt(needle, hay[1..], i) <==> OccursAt(needle, hay, i + 1))
  {
    if 0 <= i <= |hay| - 1 - |needle| {
      assert hay[1..][i..i + |needle|] == hay[i + 1..i + 1 + |needle|];
    }
  }

  /** What is equal: numbers and booleans by number, text by text, sequences of one
      kind element by element; nothing else. */
  lemma {:induction false} EqualIff(a: Value, b: Value)
    ensures a.Int? && b.Int? ==> (PyEq(a, b) <==> a.n == b.n)
    ensures a.Bool? && b.Bool? ==> (PyEq(a, b) <==> a.b == b.b)
    ensures a.Int? && b.Bool? ==> (PyEq(a, b) <==> a.n == if b.b then 1 else 0)
    ensures a.Bool? && b.Int? ==> (PyEq(a, b) <==> b.n == if a.b then 1 else 0)
    ensures a.Text? && b.Text? ==> (PyEq(a, b) <==> a.s == b.s)
    ensures (a.Tuple? && b.Tuple?) || (a.List? && b.List?) ==>
              (PyEq(a, b) <==> |a.items| == |b.items| && forall i | 0 <= i < |a.items| :: PyEq(a.items[i], b.items[i]))
    ensures (a.Text? <==> !b.Text?) || (a.Tuple? <==> !b.Tuple?) || (a.List? <==> !b.List?) ==> !PyEq(a, b)
  {
  }

  /** What counts as true. */
  lemma {:induction false} TruthyIff(v: Value)
    ensures Truthy(v) <==> v != Int(0) && v != Text("") && v != Bool(false) && v != Tuple([]) && v != List([])
  {
  }

  // ----------------------------------------------------------- comparisons

  /** `left op right`. */
  function Single(left: Expr, op: CmpOperator, right: Expr): Expr {
    Compare(left, [Link(op, right)])
  }

  lemma {:induction false} SingleIs(left: Expr, op: CmpOperator, right: Expr, c: Context, l: Value, r: Value)
    requires Evaluate(left, c) == Val(l) && Evaluate(right, c) == Val(r)
    ensures var holds := ApplyCompare(op, l, r);
            Evaluate(Single(left, op, right), c)
            == if holds.IsFailure() then holds.PropagateFailure() else Val(Bool(holds.v))
  {
    var links := [Link(op, right)];
    assert links[1..] == [];
    assert EvaluateLinks(r, links[1..], c) == Val(Bool(true));
  }

  const ORDERINGS := {Eq, NotEq, Lt, LtE, Gt, GtE}

  predicate NumbersHold(op: CmpOperator, a: int, b: int)
    requires op in ORDERINGS
  {
    match op
    case Eq => a == b
    case NotEq => a != b
    case Lt => a < b
    case LtE => a <= b
    case Gt => a > b
    case GtE => a >= b
  }

  ghost predicate TextsHold(op: CmpOperator, a: string, b: string)
    requires op in ORDERINGS
  {
    match op
    case Eq => a == b
    case NotEq => a != b
    case Lt => TextBefore(a, b)
    case LtE => a == b || TextBefore(a, b)
    case Gt => TextBefore(b, a)
    case GtE => a == b || TextBefore(b, a)
  }

  /** Whole numbers compare as numbers do. */
  lemma {:induction false} NumbersCompare(left: Expr, op: CmpOperator, right: Expr, c: Context, a: int, b: int)
    requires Evaluate(left, c) == Val(Int(a)) && Evaluate(right, c) == Val(Int(b)) && op in ORDERINGS
    ensures Evaluate(Single(left, op, right), c) == Val(Bool(NumbersHold(op, a, b)))
  {
    SingleIs(left, op, right, c, Int(a), Int(b));
  }

  lemma {:induction false} TextAnswers(op: CmpOperator, a: string, b: string)
    requires op in ORDERINGS
    ensures ApplyCompare(op, Text(a), Text(b)) == Val(TextsHold(op, a, b))
  {
    TextLessIff(a, b);
    TextLessIff(b, a);
    TextOrder(a, b);
  }

  /** And texts by the first character that differs. */
  lemma {:induction false} TextsCompare(left: Expr, op: CmpOperator, right: Expr, c: Context, a: string, b: string)
    requires Evaluate(left, c) == Val(Text(a)) && Evaluate(right, c) == Val(Text(b)) && op in ORDERINGS
    ensures Evaluate(Single(left, op, right), c) == Val(Bool(TextsHold(op, a, b)))
  {
    TextAnswers(op, a, b);
    SingleIs(left, op, right, c, Text(a), Text(b));
  }

  lemma {:induction false} TextOrder(a: string, b: string)
    ensures !TextLess(b, a) <==> a == b || TextLess(a, b)
    ensures !TextLess(a, b) <==> a == b || TextLess(b, a)
  {
    TextLessIrreflexive(a);
    TextLessIrreflexive(b);
    if a != b {
      TextLessTotal(a, b);
      if TextLess(a, b) && TextLess(b, a) {
        TextLessTransitive(a, b, a);
      }
    }
  }

  /** Equality is asked of any two values; order only of two numbers or two texts. */
  lemma {:induction false} UnlikeCompare(left: Expr, op: CmpOperator, right: Expr, c: Context, l: Value, r: Value)
    requires Evaluate(left, c) == Val(l) && Evaluate(right, c) == Val(r)
    ensures Evaluate(Single(left, Eq, right), c) == Val(Bool(PyEq(l, r)))
    ensures Evaluate(Single(left, NotEq, right), c) == Val(Bool(!PyEq(l, r)))
    ensures op in {Lt, LtE, Gt, GtE} && !(l.Int? && r.Int?) && !(l.Text? && r.Text?) ==>
              Evaluate(Single(left, op, right), c) == RuleErr(Uncomparable)
  {
    SingleIs(left, Eq, right, c, l, r);
    SingleIs(left, NotEq, right, c, l, r);
    SingleIs(left, op, right, c, l, r);
  }

  /** Membership: an equal element of a tuple, or a stretch of a text. */
  lemma {:induction false} MembershipIs(left: Expr, right: Expr, c: Context, l: Value, r: Value)
    requires Evaluate(left, c) == Val(l) && Evaluate(right, c) == Val(r)
    ensures r.Tuple? ==> var found := exists i | 0 <= i < |r.items| :: PyEq(l, r.items[i]);
              && Evaluate(Single(left, In, right), c) == Val(Bool(found))
              && Evaluate(Single(left, NotIn, right), c) == Val(Bool(!found))
    ensures r.Text? && l.Text? ==> var found := exists i :: OccursAt(l.s, r.s, i);
              && Evaluate(Single(left, In, right), c) == Val(Bool(found))
              && Evaluate(Single(left, NotIn, right), c) == Val(Bool(!found))
    ensures !r.Tuple? && !r.Text? ==>
              && Evaluate(Single(left, In, right), c) == RuleErr(Uncomparable)
              && Evaluate(Single(left, NotIn, right), c) == RuleErr(Uncomparable)
  {
    SingleIs(left, In, right, c, l, r);
    SingleIs(left, NotIn, right, c, l, r);
    if r.Text? && l.Text? {
      SubstringIff(l.s, r.s);
    }
  }

  // ------------------------------------------------------------- arithmetic

  /** A result past 512 bits is an error, and otherwise itself. */
  function Sized(n: int): Outcome<Value> {
    if BitLength(n) > MAX_RESULT_BITS then RuleErr(TooLarge(BitLength(n))) else Val(Int(n))
  }

  lemma {:induction false} SumsAre(left: Expr, right: Expr, c: Context, a: int, b: int)
    requires Evaluate(left, c) == Val(Int(a)) && Evaluate(right, c) == Val(Int(b))
    ensures Evaluate(BinOp(left, Add, right), c) == Sized(a + b)
    ensures Evaluate(BinOp(left, Sub, right), c) == Sized(a - b)
    ensures Evaluate(UnaryOp(USub, left), c) == Val(Int(-a))
  {
  }

  /** A product is refused by its operands' bits, before it is computed. */
  lemma {:induction false} ProductsAre(left: Expr, right: Expr, c: Context, a: int, b: int)
    requires Evaluate(left, c) == Val(Int(a)) && Evaluate(right, c) == Val(Int(b))
    ensures var bits := BitLength(a) + BitLength(b);
            Evaluate(BinOp(left, Mult, right), c)
            == if bits > MAX_RESULT_BITS then RuleErr(TooLarge(bits)) else Val(Int(a * b))
  {
    ProductFits(a, b);
  }

  /** `q` and `r` are Python's quotient and remainder of `a` by `b`. */
  predicate Divides(a: int, b: int, q: int, r: int) {
    a == q * b + r && (if b > 0 then 0 <= r < b else b < r <= 0)
  }

  lemma {:induction false} QuotientsAre(left: Expr, right: Expr, c: Context, a: int, b: int, q: int, r: int)
    requires Evaluate(left, c) == Val(Int(a)) && Evaluate(right, c) == Val(Int(b))
    ensures b == 0 ==>
              && Evaluate(BinOp(left, FloorDiv, right), c) == RuleErr(DivideByZero)
              && Evaluate(BinOp(left, Mod, right), c) == RuleErr(RemainderByZero)
    ensures b != 0 && Divides(a, b, q, r) ==>
              && Evaluate(BinOp(left, FloorDiv, right), c) == Sized(q)
              && Evaluate(BinOp(left, Mod, right), c) == Sized(r)
  {
    if b != 0 && Divides(a, b, q, r) {
      FloorDivModLaws(a, b);
      DivisionUnique(a, b, q, r, PyFloorDiv(a, b), PyMod(a, b));
    }
  }

  lemma {:induction false} DivisionUnique(a: int, b: int, q: int, r: int, q': int, r': int)
    requires b != 0 && Divides(a, b, q, r) && Divides(a, b, q', r')
    ensures q == q' && r == r'
  {
    assert (q - q') * b == r' - r;
    if q > q' {
      NoSmallMultiple(q - q', b, r' - r);
    } else if q' > q {
      NoSmallMultiple(q' - q, b, r - r');
    }
  }

  lemma {:induction false} NoSmallMultiple(k: int, b: int, d: int)
    requires k >= 1 && b != 0
    ensures -(if b > 0 then b else -b) < d < (if b > 0 then b else -b) ==> k * b != d
  {
    if b > 0 {
      assert k * b >= b by { assert (k - 1) * b >= 0; }
    } else {
      assert k * b <= b by { assert (k - 1) * -b >= 0; }
    }
  }

  lemma {:induction false} ProductFits(a: int, b: int)
    ensures BitLength(a) + BitLength(b) <= MAX_RESULT_BITS ==> BitLength(a * b) <= MAX_RESULT_BITS
  {
    if BitLength(a) + BitLength(b) <= MAX_RESULT_BITS {
      ProductBits(a, b);
    }
  }

  /** Only whole numbers, of which a boolean is none, take part in arithmetic. */
  lemma {:induction false} OnlyNumbers(left: Expr, op: BinOperator, right: Expr, c: Context, l: Value, r: Value)
    requires Evaluate(left, c) == Val(l) && Evaluate(right, c) == Val(r)
    ensures !(l.Int? && r.Int?) ==> Evaluate(BinOp(left, op, right), c) == RuleErr(NotANumber)
    ensures !l.Int? ==> Evaluate(UnaryOp(USub, left), c) == RuleErr(NotANumber)
    ensures Evaluate(UnaryOp(Not, left), c) == Val(Bool(!Truthy(l)))
  {
  }

  // -------------------------------------------------------------- sequences

  /** An operand that does not settle an `and` (being true) or an `or` (being false). */
  predicate GoesOn(op: BoolOperator, e: Expr, c: Context) {
    Evaluate(e, c).Val? && (Truthy(Evaluate(e, c).v) <==> op == And)
  }

  lemma {:induction false} LoopIs(op: BoolOperator, es: seq<Expr>, c: Context)
    ensures var r := EvaluateBool(op, es, c);
            if forall i | 0 <= i < |es| :: GoesOn(op, es[i], c) then r == Val(Bool(op == And))
            else exists i | 0 <= i < |es| :: !GoesOn(op, es[i], c) && (forall j | 0 <= j < i :: GoesOn(op, es[j], c))
                   && r == if Evaluate(es[i], c).Val? then Val(Bool(op == Or)) else Evaluate(es[i], c)
    decreases es
  {
    if es != [] {
      var rest := es[1..];
      LoopIs(op, rest, c);
      assert forall i | 0 < i < |es| :: es[i] == rest[i - 1];
      if GoesOn(op, es[0], c) && exists i | 0 <= i < |rest| :: !GoesOn(op, rest[i], c) {
        var i :| 0 <= i < |rest| && !GoesOn(op, rest[i], c) && (forall j | 0 <= j < i :: GoesOn(op, rest[j], c))
              && EvaluateBool(op, rest, c)
                 == if Evaluate(rest[i], c).Val? then Val(Bool(op == Or)) else Evaluate(rest[i], c);
        assert es[i + 1] == rest[i];
      }
    }
  }

  /** `and` and `or` answer by their first operand that settles them, or fails; with
      none, `and` is true and `or` is false. */
  lemma {:induction false} BoolIs(op: BoolOperator, es: seq<Expr>, c: Context)
    ensures var r := Evaluate(BoolOp(op, es), c);
            if forall i | 0 <= i < |es| :: GoesOn(op, es[i], c) then r == Val(Bool(op == And))
            else exists i | 0 <= i < |es| :: !GoesOn(op, es[i], c) && (forall j | 0 <= j < i :: GoesOn(op, es[j], c))
                   && r == if Evaluate(es[i], c).Val? then Val(Bool(op == Or)) else Evaluate(es[i], c)
  {
    LoopIs(op, es, c);
  }

  /** The value to the left of the `k`-th link: the one just compared. */
  function LeftOf(l: Value, links: seq<Link>, k: nat, c: Context): Outcome<Value>
    requires k < |links|
  {
    if k == 0 then Val(l) else Evaluate(links[k - 1].operand, c)
  }

  function LinkAt(l: Value, links: seq<Link>, k: nat, c: Context): Outcome<bool>
    requires k < |links|
  {
    var left :- LeftOf(l, links, k, c);
    var right :- Evaluate(links[k].operand, c);
    ApplyCompare(links[k].op, left, right)
  }

  lemma {:induction false} LinksAre(l: Value, links: seq<Link>, c: Context)
    ensures var r := EvaluateLinks(l, links, c);
            if forall k | 0 <= k < |links| :: LinkAt(l, links, k, c) == Val(true) then r == Val(Bool(true))
            else exists k | 0 <= k < |links| :: LinkAt(l, links, k, c) != Val(true)
                   && (forall j | 0 <= j < k :: LinkAt(l, links, j, c) == Val(true))
                   && r == if LinkAt(l, links, k, c).Val? then Val(Bool(false))
                           else LinkAt(l, links, k, c).PropagateFailure()
    decreases links
  {
    if links != [] {
      assert (links decreases to links[0]);
      var first := LinkAt(l, links, 0, c);
      if first == Val(true) {
        var r, rest := Evaluate(links[0].operand, c).v, links[1..];
        LinksAre(r, rest, c);
        forall k | 0 < k < |links| ensures LinkAt(l, links, k, c) == LinkAt(r, rest, k - 1, c) {
          assert links[k] == rest[k - 1];
          assert k > 1 ==> links[k - 1] == rest[k - 2];
        }
        if !forall k | 0 <= k < |rest| :: LinkAt(r, rest, k, c) == Val(true) {
          var k :| 0 <= k < |rest| && LinkAt(r, rest, k, c) != Val(true)
                && (forall j | 0 <= j < k :: LinkAt(r, rest, j, c) == Val(true))
                && EvaluateLinks(r, rest, c)
                   == if LinkAt(r, rest, k, c).Val? then Val(Bool(false)) else LinkAt(r, rest, k, c).PropagateFailure();
          assert LinkAt(l, links, k + 1, c) == LinkAt(r, rest, k, c);
        }
      }
    }
  }

  /** A chain compares neighbours, and stops at the first link that is false or fails. */
  lemma {:induction false} ChainIs(left: Expr, l: Value, links: seq<Link>, c: Context)
    requires Evaluate(left, c) == Val(l)
    ensures var r := Evaluate(Compare(left, links), c);
            if forall k | 0 <= k < |links| :: LinkAt(l, links, k, c) == Val(true) then r == Val(Bool(true))
            else exists k | 0 <= k < |links| :: LinkAt(l, links, k, c) != Val(true)
                   && (forall j | 0 <= j < k :: LinkAt(l, links, j, c) == Val(true))
                   && r == if LinkAt(l, links, k, c).Val? then Val(Bool(false))
                           else LinkAt(l, links, k, c).PropagateFailure()
  {
    LinksAre(l, links, c);
  }

  /** Elements and arguments: one value each, in order. */
  lemma {:induction false} AllAre(es: seq<Expr>, c: Context, vs: seq<Value>)
    ensures EvaluateAll(es, c) == Val(vs)
       <==> |vs| == |es| && forall i | 0 <= i < |es| :: Evaluate(es[i], c) == Val(vs[i])
    decreases es
  {
    if es != [] {
      var rest := es[1..];
      if vs != [] {
        AllAre(rest, c, vs[1..]);
        assert vs == [vs[0]] + vs[1..];
        assert forall i | 0 < i < |es| :: es[i] == rest[i - 1];
        assert EvaluateAll(es, c).Val? ==> EvaluateAll(es, c).v[1..] == EvaluateAll(rest, c).v;
      }
      if |vs| == |es| && forall i | 0 <= i < |es| :: Evaluate(es[i], c) == Val(vs[i]) {
        forall i | 0 <= i < |rest| ensures Evaluate(rest[i], c) == Val(vs[1..][i]) {
          assert rest[i] == es[i + 1];
        }
      }
    }
  }

  /** A literal is its value, a name the fact of that name or an error, and a node of any
      other kind an error that names the kind. */
  lemma {:induction false} LeavesAre(c: Context, v: Value, name: string, kind: string, children: seq<Expr>)
    ensures Evaluate(Const(v), c) == Val(v)
    ensures Evaluate(Name(name), c).Val? <==> name in c.facts
    ensures name in c.facts ==> Evaluate(Name(name), c) == Val(c.facts[name])
    ensures name !in c.facts ==> Evaluate(Name(name), c) == RuleErr(UnknownFact(name))
    ensures Evaluate(Other(kind, children), c) == RuleErr(CannotEvaluate(kind))
  {
  }

  /** A literal list is a tuple of its values; a call is its function's answer to them. */
  lemma {:induction false} LiteralsAndCalls(es: seq<Expr>, c: Context, vs: seq<Value>, name: string, kw: Kwargs,
                                            ks: seq<Keyword>)
    requires (|vs| == |es| && forall i | 0 <= i < |es| :: Evaluate(es[i], c) == Val(vs[i]))
    ensures Evaluate(ListLit(es), c) == Val(Tuple(vs)) && Evaluate(TupleLit(es), c) == Val(Tuple(vs))
    ensures name in c.functions && EvaluateKeywords(ks, c) == Val(kw) ==>
              Evaluate(Call(Name(name), es, ks), c) == c.functions[name](vs, kw)
    ensures name !in c.functions ==> Evaluate(Call(Name(name), es, ks), c) == RuleErr(NotAvailable(name))
  {
    AllAre(es, c, vs);
  }
}
