/** The textual guard that runs before rule text is parsed. */
module Scanner {
  import opened Decimal
  import opened Validator

  const MAX_NESTING_DEPTH: int := 20
  const MAX_UNARY_RUN: int := 5

  /** Unicode's tables, for what lies outside ASCII. */
  datatype Unicode = Unicode(space: char -> bool, alnum: char -> bool)

  predicate IsAscii(c: char) {
    c as int < 128
  }

  predicate IsSpace(u: Unicode, c: char) {
    if IsAscii(c) then c == ' ' || 9 <= c as int <= 13 || 28 <= c as int <= 31 else u.space(c)
  }

  predicate IsAlnum(u: Unicode, c: char) {
    if IsAscii(c) then IsLetter(c) || IsDigit(c) else u.alnum(c)
  }

  // --------------------------------------------------------- one scanning step

  predicate IsQuote(c: char) {
    c == '\'' || c == '"'
  }

  predicate IsOpener(c: char) {
    c == '(' || c == '[' || c == '{'
  }

  predicate IsCloser(c: char) {
    c == ')' || c == ']' || c == '}'
  }

  predicate IsUnary(c: char) {
    c == '-' || c == '+' || c == '~'
  }

  predicate StartsAt(s: string, i: nat, word: string) {
    i + |word| <= |s| && s[i..i + |word|] == word
  }

  /** Where a literal with this delimiter closes, searching from `i`. */
  function CloseFrom(s: string, i: nat, delimiter: string): (n: nat)
    requires delimiter != ""
    ensures i <= |s| ==> i <= n <= |s|
    ensures i > |s| ==> n == |s|
    decreases |s| - i
  {
    if i >= |s| then |s|
    else if s[i] == '\\' then CloseFrom(s, i + 2, delimiter)
    else if StartsAt(s, i, delimiter) then i + |delimiter|
    else CloseFrom(s, i + 1, delimiter)
  }

  function Delimiter(s: string): (d: string)
    requires s != ""
    ensures d != "" && |d| <= |s|
  {
    if StartsAt(s, 0, [s[0], s[0], s[0]]) then [s[0], s[0], s[0]] else [s[0]]
  }

  function LineEnd(s: string, i: nat): (n: nat)
    requires i <= |s|
    ensures i <= n <= |s|
    decreases |s| - i
  {
    if i == |s| then |s| else if s[i] == '\n' then i + 1 else LineEnd(s, i + 1)
  }

  predicate StartsNot(u: Unicode, s: string) {
    StartsAt(s, 0, "not") && (|s| > 3 ==> !IsAlnum(u, s[3]) && s[3] != '_')
  }

  datatype Kind = Literal | Comment | Open | Close | Unary | Space | Foreign | Plain

  function Classify(u: Unicode, s: string): Kind
    requires s != ""
  {
    var c := s[0];
    if IsQuote(c) then Literal
    else if c == '#' then Comment
    else if IsOpener(c) then Open
    else if IsCloser(c) then Close
    else if IsUnary(c) || StartsNot(u, s) then Unary
    else if IsSpace(u, c) then Space
    else if !IsAscii(c) then Foreign
    else Plain
  }

  /** How far a step goes: it always advances and never passes the end. */
  function Width(u: Unicode, s: string): (n: nat)
    requires s != ""
    ensures 1 <= n <= |s|
  {
    var c := s[0];
    if IsQuote(c) then CloseFrom(s, |Delimiter(s)|, Delimiter(s))
    else if c == '#' then LineEnd(s, 1)
    else if !IsOpener(c) && !IsCloser(c) && !IsUnary(c) && StartsNot(u, s) then 3
    else 1
  }

  // ------------------------------------------------------------------ the scan

  datatype Verdict = Accepted | TooDeep | TooManyOperators | NonAscii

  function NextDepth(depth: int, k: Kind): int {
    if k == Open then depth + 1 else if k == Close then (if depth > 0 then depth - 1 else 0) else depth
  }

  function NextRun(run: int, k: Kind): int {
    if k == Unary then run + 1 else if k == Space then run else 0
  }

  function Scan(u: Unicode, s: string, depth: int, run: int): Verdict
    decreases |s|
  {
    if s == "" then Accepted
    else
      var k := Classify(u, s);
      if k == Foreign then NonAscii
      else if NextDepth(depth, k) > MAX_NESTING_DEPTH then TooDeep
      else if NextRun(run, k) > MAX_UNARY_RUN then TooManyOperators
      else Scan(u, s[Width(u, s)..], NextDepth(depth, k), NextRun(run, k))
  }

  lemma {:induction false} StartsShifted(source: string, index: nat, i: nat, word: string)
    requires index <= i <= |source|
    ensures StartsAt(source, i, word) == StartsAt(source[index..], i - index, word)
  {
    if i + |word| <= |source| {
      assert source[i..i + |word|] == source[index..][i - index..i - index + |word|];
    }
  }

  /** `_skip_string`: the index just past the literal that starts at `index`. */
  method SkipString(source: string, index: nat) returns (past: nat)
    requires index < |source| && IsQuote(source[index])
    ensures past == index + CloseFrom(source[index..], |Delimiter(source[index..])|, Delimiter(source[index..]))
    ensures index < past <= |source|
  {
    ghost var s := source[index..];
    var quote := source[index];
    var triple := StartsAt(source, index, [quote, quote, quote]);
    StartsShifted(source, index, index, [quote, quote, quote]);
    var delimiter := if triple then [quote, quote, quote] else [quote];
    assert delimiter == Delimiter(s);
    past := FindClose(source, index, delimiter);
  }

  /** The loop of `_skip_string`, which honours backslash escapes. */
  method FindClose(source: string, index: nat, delimiter: string) returns (past: nat)
    requires index + |delimiter| <= |source| && delimiter != ""
    ensures past == index + CloseFrom(source[index..], |delimiter|, delimiter)
  {
    ghost var s := source[index..];
    var i := index + |delimiter|;
    while i < |source|
      invariant index + |delimiter| <= i
      invariant CloseFrom(s, |delimiter|, delimiter) == CloseFrom(s, i - index, delimiter)
    {
      assert s[i - index] == source[i];
      StartsShifted(source, index, i, delimiter);
      if source[i] == '\\' {
        i := i + 2;
      } else if StartsAt(source, i, delimiter) {
        return i + |delimiter|;
      } else {
        i := i + 1;
      }
    }
    past := |source|;
  }

  /** Past the end of the comment that starts at `index`. */
  method SkipComment(source: string, index: nat) returns (past: nat)
    requires index < |source|
    ensures past == index + LineEnd(source[index..], 1)
  {
    ghost var s := source[index..];
    past := index + 1;
    while past < |source|
      invariant index < past <= |source|
      invariant LineEnd(s, 1) == LineEnd(s, past - index)
    {
      assert s[past - index] == source[past];
      past := past + 1;
      if source[past - 1] == '\n' {
        return;
      }
    }
  }

  /** One step of the scan, in terms of positions in the whole text. */
  lemma {:induction false} ScanAdvances(u: Unicode, source: string, index: nat, depth: int, run: int)
    requires index < |source|
    ensures var s := source[index..];
            var k, past := Classify(u, s), index + Width(u, s);
            && index < past <= |source|
            && Scan(u, s, depth, run)
               == if k == Foreign then NonAscii
                  else if NextDepth(depth, k) > MAX_NESTING_DEPTH then TooDeep
                  else if NextRun(run, k) > MAX_UNARY_RUN then TooManyOperators
                  else Scan(u, source[past..], NextDepth(depth, k), NextRun(run, k))
  {
    var s := source[index..];
    assert s[Width(u, s)..] == source[index + Width(u, s)..];
  }

  /** What stands at `index`, and where the next step starts. */
  method Step(u: Unicode, source: string, index: nat) returns (k: Kind, next: nat)
    requires index < |source|
    ensures k == Classify(u, source[index..]) && next == index + Width(u, source[index..])
  {
    var c, s := source[index], source[index..];
    if IsQuote(c) {
      next := SkipString(source, index);
      k := Literal;
    } else if c == '#' {
      next := SkipComment(source, index);
      k := Comment;
    } else if IsOpener(c) {
      k, next := Open, index + 1;
    } else if IsCloser(c) {
      k, next := Close, index + 1;
    } else if IsUnary(c) {
      k, next := Unary, index + 1;
    } else if StartsNot(u, s) {
      k, next := Unary, index + 3;
    } else if IsSpace(u, c) {
      k, next := Space, index + 1;
    } else if !IsAscii(c) {
      k, next := Foreign, index + 1;
    } else {
      k, next := Plain, index + 1;
    }
  }

  /** `_scan`: one pass over the text, outside literals and comments. */
  method ScanSource(u: Unicode, source: string) returns (v: Verdict)
    ensures v == Scan(u, source, 0, 0)
  {
    var depth, run, index := 0, 0, 0;
    ghost var verdict := Scan(u, source, 0, 0);
    assert source[0..] == source;
    while index < |source|
      invariant 0 <= index <= |source|
      invariant verdict == Scan(u, source[index..], depth, run)
    {
      var k, next := Step(u, source, index);
      ScanAdvances(u, source, index, depth, run);
      if k == Foreign {
        return NonAscii;
      }
      depth, run := NextDepth(depth, k), NextRun(run, k);
      if depth > MAX_NESTING_DEPTH {
        return TooDeep;
      }
      if run > MAX_UNARY_RUN {
        return TooManyOperators;
      }
      index := next;
    }
    assert source[index..] == "";
    v := Accepted;
  }

  // ---------------------------------------------------- what acceptance means

  /** The steps of a scan, whatever it thinks of them. */
  function Kinds(u: Unicode, s: string): seq<Kind>
    decreases |s|
  {
    if s == "" then [] else [Classify(u, s)] + Kinds(u, s[Width(u, s)..])
  }

  /** Openers minus closers. */
  function Net(ks: seq<Kind>): int {
    if ks == [] then 0
    else Net(ks[..|ks| - 1]) + (match ks[|ks| - 1] case Open => 1 case Close => -1 case _ => 0)
  }

  function Operators(ks: seq<Kind>): nat {
    if ks == [] then 0 else Operators(ks[..|ks| - 1]) + (if ks[|ks| - 1] == Unary then 1 else 0)
  }

  /** The counters after some steps. */
  function DepthAfter(ks: seq<Kind>): int {
    if ks == [] then 0 else NextDepth(DepthAfter(ks[..|ks| - 1]), ks[|ks| - 1])
  }

  function RunAfter(ks: seq<Kind>): int {
    if ks == [] then 0 else NextRun(RunAfter(ks[..|ks| - 1]), ks[|ks| - 1])
  }

  predicate Bare(ks: seq<Kind>) {
    forall i | 0 <= i < |ks| :: ks[i] == Unary || ks[i] == Space
  }

  /** No stretch of the text opens more than 20 brackets net. */
  ghost predicate Shallow(ks: seq<Kind>) {
    forall i, j | 0 <= i <= j <= |ks| :: Net(ks[i..j]) <= 20
  }

  /** No stretch of only unary operators and space holds more than five of them. */
  ghost predicate ShortRuns(ks: seq<Kind>) {
    forall i, j | 0 <= i <= j <= |ks| && Bare(ks[i..j]) :: Operators(ks[i..j]) <= 5
  }

  lemma {:induction false} LastOff(ks: seq<Kind>, i: nat)
    requires i < |ks|
    ensures ks[i..] != [] && ks[i..][..|ks[i..]| - 1] == ks[..|ks| - 1][i..] && ks[i..][|ks[i..]| - 1] == ks[|ks| - 1]
  {
  }

  /** The floored depth counter is the greatest net depth over all earlier starts. */
  lemma {:induction false} DepthIsGreatestNet(ks: seq<Kind>) returns (start: nat)
    ensures start <= |ks| && Net(ks[start..]) == DepthAfter(ks)
    ensures forall i | 0 <= i <= |ks| :: Net(ks[i..]) <= DepthAfter(ks)
    ensures DepthAfter(ks) >= 0
  {
    if ks == [] {
      start := 0;
    } else {
      var shorter := ks[..|ks| - 1];
      start := DepthIsGreatestNet(shorter);
      forall i | 0 <= i <= |ks| ensures Net(ks[i..]) <= DepthAfter(ks) {
        if i < |ks| {
          LastOff(ks, i);
        }
      }
      if ks[|ks| - 1] == Close && DepthAfter(shorter) == 0 {
        start := |ks|;
      } else {
        LastOff(ks, start);
      }
    }
  }

  /** The run counter is the greatest number of operators in a bare stretch ending here. */
  lemma {:induction false} RunIsLongestBare(ks: seq<Kind>) returns (start: nat)
    ensures start <= |ks| && Bare(ks[start..]) && Operators(ks[start..]) == RunAfter(ks)
    ensures forall i | 0 <= i <= |ks| && Bare(ks[i..]) :: Operators(ks[i..]) <= RunAfter(ks)
    ensures RunAfter(ks) >= 0
  {
    if ks == [] {
      start := 0;
    } else {
      var shorter, last := ks[..|ks| - 1], ks[|ks| - 1];
      start := RunIsLongestBare(shorter);
      forall i | 0 <= i <= |ks| && Bare(ks[i..]) ensures Operators(ks[i..]) <= RunAfter(ks) {
        if i < |ks| {
          LastOff(ks, i);
          BareShorter(ks[i..]);
        }
      }
      if last == Unary || last == Space {
        LastOff(ks, start);
        assert ks[start..] == shorter[start..] + [last];
      } else {
        start := |ks|;
      }
    }
  }

  lemma {:induction false} BareShorter(ks: seq<Kind>)
    requires ks != [] && Bare(ks)
    ensures Bare(ks[..|ks| - 1]) && (ks[|ks| - 1] == Unary || ks[|ks| - 1] == Space)
  {
  }

  /** The counters never pass their limits, over all prefixes from `from` on. */
  ghost predicate WithinLimits(ks: seq<Kind>, from: nat) {
    forall k | from <= k <= |ks| :: DepthAfter(ks[..k]) <= MAX_NESTING_DEPTH && RunAfter(ks[..k]) <= MAX_UNARY_RUN
  }

  lemma {:induction false} LimitsAreStretches(ks: seq<Kind>)
    ensures WithinLimits(ks, 0) <==> Shallow(ks) && ShortRuns(ks)
  {
    if WithinLimits(ks, 0) {
      forall i, j | 0 <= i <= j <= |ks| ensures Net(ks[i..j]) <= MAX_NESTING_DEPTH {
        var _ := DepthIsGreatestNet(ks[..j]);
        assert ks[..j][i..] == ks[i..j];
      }
      forall i, j | 0 <= i <= j <= |ks| && Bare(ks[i..j]) ensures Operators(ks[i..j]) <= MAX_UNARY_RUN {
        var _ := RunIsLongestBare(ks[..j]);
        assert ks[..j][i..] == ks[i..j];
      }
    }
    if Shallow(ks) && ShortRuns(ks) {
      forall k | 0 <= k <= |ks|
        ensures DepthAfter(ks[..k]) <= MAX_NESTING_DEPTH && RunAfter(ks[..k]) <= MAX_UNARY_RUN
      {
        var d := DepthIsGreatestNet(ks[..k]);
        var r := RunIsLongestBare(ks[..k]);
        assert ks[..k][d..] == ks[d..k] && ks[..k][r..] == ks[r..k];
      }
    }
  }

  lemma {:induction false} ScanFollowsCounters(u: Unicode, s: string, done: seq<Kind>)
    ensures Scan(u, s, DepthAfter(done), RunAfter(done)) == Accepted
       <==> Foreign !in Kinds(u, s) && WithinLimits(done + Kinds(u, s), |done| + 1)
    decreases |s|
  {
    if s == "" {
      assert done + Kinds(u, s) == done;
    } else {
      var k, rest := Classify(u, s), s[Width(u, s)..];
      var next, all := done + [k], done + Kinds(u, s);
      assert next[..|next| - 1] == done;
      assert all == next + Kinds(u, rest);
      ScanFollowsCounters(u, rest, next);
      assert all[..|done| + 1] == next;
      assert WithinLimits(all, |done| + 1) <==>
             (&& DepthAfter(next) <= MAX_NESTING_DEPTH && RunAfter(next) <= MAX_UNARY_RUN
              && WithinLimits(all, |next| + 1));
    }
  }

  /** A text is accepted exactly when, outside literals and comments, nothing is
      foreign, no stretch nests deeper than 20 and no unary run exceeds five. */
  lemma {:induction false} AcceptedIff(u: Unicode, source: string)
    ensures Scan(u, source, 0, 0) == Accepted
       <==> Foreign !in Kinds(u, source) && Shallow(Kinds(u, source)) && ShortRuns(Kinds(u, source))
  {
    var ks := Kinds(u, source);
    ScanFollowsCounters(u, source, []);
    assert [] + ks == ks;
    assert ks[..0] == [];
    LimitsAreStretches(ks);
  }

  // ------------------------------------------- literals hide their contents

  /** The scan comes to stand at position `k`, between two steps. */
  predicate Reaches(u: Unicode, s: string, k: nat)
    decreases k
  {
    k == 0 || (s != "" && Width(u, s) <= k && Reaches(u, s[Width(u, s)..], k - Width(u, s)))
  }

  predicate Agree(s: string, t: string, n: nat) {
    n <= |s| && n <= |t| && s[..n] == t[..n]
  }

  lemma {:induction false} AgreeAt(s: string, t: string, n: nat, i: nat)
    requires Agree(s, t, n) && i < n
    ensures s[i] == t[i]
  {
    assert s[..n][i] == t[..n][i];
  }

  lemma {:induction false} AgreeStarts(s: string, t: string, n: nat, i: nat, word: string)
    requires Agree(s, t, n) && i + |word| <= n
    ensures StartsAt(s, i, word) == StartsAt(t, i, word)
  {
    assert s[i..i + |word|] == s[..n][i..i + |word|] && t[i..i + |word|] == t[..n][i..i + |word|];
  }

  lemma {:induction false} StartsHas(s: string, i: nat, word: string, k: nat)
    requires k < |word|
    ensures StartsAt(s, i, word) ==> s[i + k] == word[k]
  {
    if StartsAt(s, i, word) {
      assert s[i..i + |word|][k] == s[i + k];
    }
  }

  lemma {:induction false} CloseAtLeast(s: string, i: nat, delimiter: string)
    requires delimiter != ""
    ensures CloseFrom(s, i, delimiter) == |s| || CloseFrom(s, i, delimiter) >= i + |delimiter|
    decreases |s| - i
  {
    if i < |s| {
      CloseAtLeast(s, i + (if s[i] == '\\' then 2 else 1), delimiter);
    }
  }

  lemma {:induction false} CloseAgrees(s: string, t: string, n: nat, i: nat, delimiter: string)
    requires Agree(s, t, n) && delimiter != "" && n < |s| && n < |t| && CloseFrom(s, i, delimiter) <= n
    ensures CloseFrom(t, i, delimiter) == CloseFrom(s, i, delimiter)
    decreases |s| - i
  {
    CloseAtLeast(s, i, delimiter);
    AgreeAt(s, t, n, i);
    AgreeStarts(s, t, n, i, delimiter);
    if s[i] == '\\' {
      CloseAgrees(s, t, n, i + 2, delimiter);
    } else if !StartsAt(s, i, delimiter) {
      CloseAgrees(s, t, n, i + 1, delimiter);
    }
  }

  lemma {:induction false} LineAgrees(s: string, t: string, n: nat, i: nat)
    requires Agree(s, t, n) && n < |s| && n < |t| && i <= |s| && LineEnd(s, i) <= n
    ensures i <= |t| && LineEnd(t, i) == LineEnd(s, i)
    decreases |s| - i
  {
    if i < n {
      AgreeAt(s, t, n, i);
      if s[i] != '\n' {
        LineAgrees(s, t, n, i + 1);
      }
    } else {
      LineEndPast(s, i);
    }
  }

  lemma {:induction false} LineEndPast(s: string, i: nat)
    requires i < |s|
    ensures LineEnd(s, i) > i
  {
  }

  /** A step that ends by position `n` is decided by the text up to there and the
      quote that stands at `n`. */
  lemma {:induction false} StepAgrees(u: Unicode, s: string, t: string, n: nat)
    requires n < |s| && n < |t| && Agree(s, t, n + 1) && IsQuote(s[n]) && 0 < n && Width(u, s) <= n
    ensures Classify(u, t) == Classify(u, s) && Width(u, t) == Width(u, s)
  {
    AgreeAt(s, t, n + 1, 0);
    assert Agree(s, t, n) by { assert s[..n] == s[..n + 1][..n] && t[..n] == t[..n + 1][..n]; }
    if IsQuote(s[0]) {
      QuoteAgrees(u, s, t, n);
    } else if s[0] == '#' {
      LineAgrees(s, t, n, 1);
    } else {
      NotAgrees(u, s, t, n);
    }
  }

  lemma {:induction false} QuoteAgrees(u: Unicode, s: string, t: string, n: nat)
    requires n < |s| && n < |t| && Agree(s, t, n + 1) && Agree(s, t, n) && 0 < n
    requires IsQuote(s[0]) && s[0] == t[0] && Width(u, s) <= n
    ensures Width(u, t) == Width(u, s)
  {
    var d := Delimiter(s);
    CloseAtLeast(s, |d|, d);
    AgreeStarts(s, t, n + 1, 0, [s[0], s[0], s[0]]);
    CloseAgrees(s, t, n, |d|, d);
  }

  lemma {:induction false} NotAgrees(u: Unicode, s: string, t: string, n: nat)
    requires n < |s| && n < |t| && Agree(s, t, n + 1) && IsQuote(s[n]) && 0 < n
    ensures StartsNot(u, s) == StartsNot(u, t)
  {
    AgreeAt(s, t, n + 1, n);
    if n >= 3 {
      AgreeStarts(s, t, n + 1, 0, "not");
      AgreeAt(s, t, n + 1, 3);
    } else {
      StartsHas(s, 0, "not", n);
      StartsHas(t, 0, "not", n);
    }
  }

  /** Contents a literal can be closed around: no backslash and not its own quote. */
  predicate Unescaped(body: string, q: char) {
    body != "" && forall i | 0 <= i < |body| :: body[i] != q && body[i] != '\\'
  }

  lemma {:induction false} CloseAfter(s: string, q: char, end: nat, i: nat)
    requires i <= end < |s| && s[end] == q && q != '\\' && forall k | i <= k < end :: s[k] != q && s[k] != '\\'
    ensures CloseFrom(s, i, [q]) == end + 1
    decreases end - i
  {
    assert StartsAt(s, i, [q]) <==> s[i] == q by { assert s[i..i + 1] == [s[i]]; }
    if i < end {
      CloseAfter(s, q, end, i + 1);
    }
  }

  lemma {:induction false} LiteralWidth(u: Unicode, q: char, body: string, post: string)
    requires IsQuote(q) && Unescaped(body, q)
    ensures var s := [q] + body + [q] + post;
            Classify(u, s) == Literal && Width(u, s) == |body| + 2 && s[|body| + 2..] == post
  {
    var s := [q] + body + [q] + post;
    assert s[1] == body[0] && s[|body| + 1] == q;
    StartsHas(s, 0, [q, q, q], 1);
    forall k | 1 <= k < |body| + 1 ensures s[k] != q && s[k] != '\\' {
      assert s[k] == body[k - 1];
    }
    CloseAfter(s, q, |body| + 1, 1);
  }

  /** Swapping the contents of a quoted literal for other contents that the quote
      and backslash do not occur in never changes the verdict. */
  lemma {:induction false} LiteralContentsIrrelevant(u: Unicode, pre: string, q: char, body: string, other: string,
                                                     post: string, depth: int, run: int)
    requires IsQuote(q) && Unescaped(body, q) && Unescaped(other, q)
    requires Reaches(u, pre + ([q] + body + [q] + post), |pre|)
    ensures Scan(u, pre + ([q] + body + [q] + post), depth, run)
         == Scan(u, pre + ([q] + other + [q] + post), depth, run)
    decreases |pre|
  {
    var a, b := [q] + body + [q] + post, [q] + other + [q] + post;
    if pre == "" {
      assert pre + a == a && pre + b == b;
      LiteralWidth(u, q, body, post);
      LiteralWidth(u, q, other, post);
    } else {
      SharedStep(u, pre, q, a, b);
      var s := pre + a;
      LiteralContentsIrrelevant(u, pre[Width(u, s)..], q, body, other, post,
                                NextDepth(depth, Classify(u, s)), NextRun(run, Classify(u, s)));
    }
  }

  /** A first step that ends before the literal is the same in both texts. */
  lemma {:induction false} SharedStep(u: Unicode, pre: string, q: char, a: string, b: string)
    requires pre != "" && a != "" && b != "" && a[0] == q && b[0] == q && IsQuote(q) && Width(u, pre + a) <= |pre|
    ensures Classify(u, pre + b) == Classify(u, pre + a) && Width(u, pre + b) == Width(u, pre + a)
    ensures var w := Width(u, pre + a); (pre + a)[w..] == pre[w..] + a && (pre + b)[w..] == pre[w..] + b
  {
    var s, t, n := pre + a, pre + b, |pre|;
    assert s[n] == q && t[n] == q;
    assert s[..n + 1] == pre + [q] && t[..n + 1] == pre + [q];
    StepAgrees(u, s, t, n);
  }
}
