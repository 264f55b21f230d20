/** Whole numbers as decimal text: Python's `str(int)` and `int(text)`. */
module Decimal {
  import opened Values

  predicate IsDigit(c: char) {
    '0' <= c <= '9'
  }

  function DigitChar(d: nat): (c: char)
    requires d < 10
    ensures IsDigit(c) && DigitValue(c) == d
  {
    '0' + d as char
  }

  function DigitValue(c: char): nat
    requires IsDigit(c)
  {
    c as int - '0' as int
  }

  function Digits(n: nat): string {
    if n < 10 then [DigitChar(n)] else Digits(n / 10) + [DigitChar(n % 10)]
  }

  function Str(n: int): string {
    if n < 0 then "-" + Digits(-n) else Digits(n)
  }

  predicate AllDigits(s: string) {
    forall i | 0 <= i < |s| :: IsDigit(s[i])
  }

  function NatOf(s: string): Option<nat> {
    if s == "" || !IsDigit(s[|s| - 1]) then None
    else if |s| == 1 then Some(DigitValue(s[0]))
    else
      var high := NatOf(s[..|s| - 1]);
      if high.None? then None else Some(10 * high.value + DigitValue(s[|s| - 1]))
  }

  /** The signed decimal texts; the other spellings `int()` accepts never occur
      in what this system writes. */
  function IntOf(s: string): Option<int> {
    if s != "" && s[0] == '-' then
      var n: Option<int> := NatOf(s[1..]);
      if n.None? then None else Some(-n.value)
    else NatOf(s)
  }

  lemma {:induction false} DigitsShape(n: nat)
    ensures Digits(n) != "" && AllDigits(Digits(n))
    ensures Digits(n)[0] == '0' <==> n == 0
  {
    if n >= 10 {
      DigitsShape(n / 10);
    }
  }

  lemma {:induction false} NatOfDigits(n: nat)
    ensures NatOf(Digits(n)) == Some(n)
  {
    if n >= 10 {
      NatOfDigits(n / 10);
      DigitsShape(n / 10);
      var s := Digits(n);
      assert s[..|s| - 1] == Digits(n / 10);
    }
  }

  lemma {:induction false} IntOfStr(n: int)
    ensures IntOf(Str(n)) == Some(n)
  {
    NatOfDigits(if n < 0 then -n else n);
    DigitsShape(if n < 0 then -n else n);
    if n < 0 {
      assert Str(n)[1..] == Digits(-n);
    }
  }
}
