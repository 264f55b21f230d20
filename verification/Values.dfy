/** The values a rule can see, and what evaluating one can produce.

    `Outcome` separates the three ways an evaluation ends: with a value, with a
    rule evaluation error (which the engine turns into the tenant's fallback),
    or with a host exception that no handler on the decision path expects. */
module Values {

  datatype Option<+T> = None | Some(value: T)

  /** `Tuple` is what the interpreter and the named lists produce. `List` is a
      host list: it only arises as a fact copied from a request body. */
  datatype Value =
    | Int(n: int)
    | Text(s: string)
    | Bool(b: bool)
    | Tuple(items: seq<Value>)
    | List(items: seq<Value>)

  datatype EvalError =
    | UnknownFact(name: string)
    | StepBudget(max: nat)
    | Uncomparable
    | NotANumber
    | TooLarge(bits: nat)
    | DivideByZero
    | RemainderByZero
    | NotAvailable(name: string)
    | CannotEvaluate(kind: string)
    | NotAWindow
    | NotAWholeNumber
    | NotADate
    | NeedsADate
    | NeedsAList
    | VelocityUnavailable

  datatype Outcome<+T> = Val(v: T) | RuleErr(error: EvalError) | HostErr
  {
    predicate IsFailure() {
      !Val?
    }

    function PropagateFailure<U>(): Outcome<U>
      requires IsFailure()
    {
      if RuleErr? then RuleErr(error) else HostErr
    }

    function Extract(): T
      requires Val?
    {
      v
    }
  }

  /** A whole number; a boolean is not one. */
  predicate IsNumber(v: Value) {
    v.Int?
  }

  /** Python's `bool(v)`. */
  predicate Truthy(v: Value) {
    match v
    case Int(n) => n != 0
    case Text(s) => s != ""
    case Bool(b) => b
    case Tuple(items) => items != []
    case List(items) => items != []
  }

  /** The number a value is equal to, if any: `True == 1` holds in Python. */
  function Numeric(v: Value): Option<int> {
    match v
    case Int(n) => Some(n)
    case Bool(b) => Some(if b then 1 else 0)
    case _ => None
  }

  /** Python's `==` on these values. */
  predicate PyEq(a: Value, b: Value)
    decreases a
  {
    match (a, b)
    case (Text(s), Text(t)) => s == t
    case (Tuple(xs), Tuple(ys)) => |xs| == |ys| && forall i | 0 <= i < |xs| :: PyEq(xs[i], ys[i])
    case (List(xs), List(ys)) => |xs| == |ys| && forall i | 0 <= i < |xs| :: PyEq(xs[i], ys[i])
    case _ => Numeric(a).Some? && Numeric(a) == Numeric(b)
  }

  predicate Contains(items: seq<Value>, v: Value) {
    exists i | 0 <= i < |items| :: PyEq(v, items[i])
  }

  predicate Substring(needle: string, hay: string)
    decreases |hay|
  {
    |needle| <= |hay| && (needle <= hay || (hay != "" && Substring(needle, hay[1..])))
  }

  /** Code point order, as Python orders text. */
  predicate TextLess(a: string, b: string) {
    b != "" && (a == "" || a[0] < b[0] || (a[0] == b[0] && TextLess(a[1..], b[1..])))
  }

  predicate SameOrderableKind(l: Value, r: Value) {
    (IsNumber(l) && IsNumber(r)) || (l.Text? && r.Text?)
  }

  predicate Less(l: Value, r: Value)
    requires SameOrderableKind(l, r)
  {
    if l.Int? then l.n < r.n else TextLess(l.s, r.s)
  }

  /** `left in right`, once `right` is known to be a tuple or text. Looking for
      anything but text inside text is a host TypeError. */
  function IsIn(l: Value, r: Value): Outcome<bool>
    requires r.Tuple? || r.Text?
  {
    if r.Tuple? then Val(Contains(r.items, l))
    else if l.Text? then Val(Substring(l.s, r.s))
    else HostErr
  }

  predicate MembershipFaults(l: Value, r: Value) {
    r.Text? && !l.Text?
  }

  lemma {:induction false} TextLessIrreflexive(a: string)
    ensures !TextLess(a, a)
  {
    if a != "" {
      TextLessIrreflexive(a[1..]);
    }
  }

  lemma {:induction false} TextLessTransitive(a: string, b: string, c: string)
    requires TextLess(a, b) && TextLess(b, c)
    ensures TextLess(a, c)
  {
    if a != "" && a[0] == b[0] && b[0] == c[0] {
      TextLessTransitive(a[1..], b[1..], c[1..]);
    }
  }

  lemma {:induction false} TextLessTotal(a: string, b: string)
    requires a != b
    ensures TextLess(a, b) || TextLess(b, a)
  {
    if a != "" && b != "" && a[0] == b[0] {
      assert a[1..] != b[1..] by { assert a == [a[0]] + a[1..] && b == [b[0]] + b[1..]; }
      TextLessTotal(a[1..], b[1..]);
    }
  }
}
