/** What each step of the scan takes in: which characters it stands on, where a literal
    ends however it is written, and where a comment does. */
module ScannerSteps {
  import opened Scanner

  // --------------------------------------------------------------- characters

  /** Brackets open and close, signs and the word `not` count as operators, and outside
      literals and comments a character past ASCII is foreign unless it is a space. */
  lemma {:induction false} KindsAre(u: Unicode, s: string)
    requires s != ""
    ensures Classify(u, s) == Literal <==> s[0] as int in {34, 39}
    ensures Classify(u, s) == Comment <==> s[0] as int == 35
    ensures Classify(u, s) == Open <==> s[0] in {'(', '[', '{'}
    ensures Classify(u, s) == Close <==> s[0] in {')', ']', '}'}
    ensures Classify(u, s) == Unary <==> s[0] in {'+', '-', '~'} || NotWord(u, s)
    ensures Classify(u, s) == Foreign <==> s[0] as int > 127 && !u.space(s[0])
    ensures Classify(u, s) == Space <==> Blank(u, s[0])
  {
    NotWordIff(u, s);
  }

  predicate Blank(u: Unicode, c: char) {
    if c as int > 127 then u.space(c) else c == ' ' || 9 <= c as int <= 13 || 28 <= c as int <= 31
  }

  /** The text begins with the word `not`: no letter, digit or underscore follows. */
  predicate NotWord(u: Unicode, s: string) {
    && |s| >= 3 && s[0] == 'n' && s[1] == 'o' && s[2] == 't'
    && (|s| > 3 ==> var c := s[3];
          if c as int > 127 then !u.alnum(c)
          else !('a' <= c <= 'z' || 'A' <= c <= 'Z' || '0' <= c <= '9' || c == '_'))
  }

  lemma {:induction false} NotWordIff(u: Unicode, s: string)
    requires s != ""
    ensures StartsNot(u, s) <==> NotWord(u, s)
    ensures NotWord(u, s) ==> Width(u, s) == 3
  {
    if |s| >= 3 {
      assert s[..3] == [s[0], s[1], s[2]];
      assert StartsAt(s, 0, "not") <==> s[0] == 'n' && s[1] == 'o' && s[2] == 't';
    }
  }

  // ------------------------------------------------------------------ literals

  /** Between delimiters: characters that do not start one, and pairs of a backslash
      and whatever it escapes. */
  predicate Body(b: string, delimiter: string, rest: string)
    decreases |b|
  {
    if b == "" then true
    else if b[0] == '\\' then |b| > 1 && Body(b[2..], delimiter, rest)
    else !(delimiter <= b + delimiter + rest) && Body(b[1..], delimiter, rest)
  }

  lemma {:induction false} ClosesAfter(s: string, i: nat, b: string, delimiter: string, rest: string)
    requires delimiter != "" && delimiter[0] != '\\' && i <= |s| && s[i..] == b + delimiter + rest
    requires Body(b, delimiter, rest)
    ensures CloseFrom(s, i, delimiter) == i + |b| + |delimiter|
    decreases |b|
  {
    assert |s| - i == |b| + |delimiter| + |rest|;
    StartsHere(s, i, delimiter);
    if b == "" {
      assert s[i..] == delimiter + rest;
      assert s[i] == s[i..][0] == delimiter[0];
    } else {
      assert s[i] == s[i..][0] == b[0];
      var skip := if b[0] == '\\' then 2 else 1;
      assert s[i + skip..] == s[i..][skip..] == b[skip..] + delimiter + rest;
      ClosesAfter(s, i + skip, b[skip..], delimiter, rest);
    }
  }

  lemma {:induction false} StartsHere(s: string, i: nat, word: string)
    requires i <= |s|
    ensures StartsAt(s, i, word) <==> word <= s[i..]
  {
    if i + |word| <= |s| {
      assert s[i..][..|word|] == s[i..i + |word|];
    }
  }

  predicate Quotes(q: char, delimiter: string) {
    IsQuote(q) && (delimiter == [q] || delimiter == [q, q, q])
  }

  lemma {:induction false} DelimiterIs(s: string, q: char, delimiter: string)
    requires Quotes(q, delimiter) && delimiter <= s && (|delimiter| == 1 ==> !([q, q, q] <= s))
    ensures Delimiter(s) == delimiter
  {
    assert s[..|delimiter|][0] == s[0];
    assert s[0..] == s;
    StartsHere(s, 0, [q, q, q]);
  }

  /** A literal ends at its closing delimiter, one quote or three, wherever escapes and
      other quotes stand inside it. */
  lemma {:induction false} LiteralEnds(u: Unicode, q: char, delimiter: string, b: string, rest: string)
    requires Quotes(q, delimiter) && Body(b, delimiter, rest)
    requires |delimiter| == 1 ==> !([q, q, q] <= delimiter + (b + delimiter + rest))
    ensures var s := delimiter + (b + delimiter + rest);
            && Classify(u, s) == Literal
            && Width(u, s) == |delimiter| + |b| + |delimiter| && s[Width(u, s)..] == rest
  {
    var s := delimiter + (b + delimiter + rest);
    assert delimiter <= s && s[0] == q;
    DelimiterIs(s, q, delimiter);
    assert s[|delimiter|..] == b + delimiter + rest;
    ClosesAfter(s, |delimiter|, b, delimiter, rest);
  }

  /** No delimiter stands in the text except behind a backslash. */
  predicate NeverCloses(b: string, delimiter: string)
    decreases |b|
  {
    if b == "" then true
    else if b[0] == '\\' then |b| > 1 ==> NeverCloses(b[2..], delimiter)
    else !(delimiter <= b) && NeverCloses(b[1..], delimiter)
  }

  lemma {:induction false} RunsOut(s: string, i: nat, delimiter: string)
    requires delimiter != "" && i <= |s| && NeverCloses(s[i..], delimiter)
    ensures CloseFrom(s, i, delimiter) == |s|
    decreases |s| - i
  {
    if i < |s| {
      StartsHere(s, i, delimiter);
      if s[i] == '\\' {
        if i + 1 < |s| {
          assert s[i + 2..] == s[i..][2..];
          RunsOut(s, i + 2, delimiter);
        }
      } else {
        assert s[i + 1..] == s[i..][1..];
        RunsOut(s, i + 1, delimiter);
      }
    }
  }

  /** One that is never closed takes in the rest of the text. */
  lemma {:induction false} UnclosedLiteral(u: Unicode, q: char, delimiter: string, b: string)
    requires Quotes(q, delimiter) && NeverCloses(b, delimiter)
    requires |delimiter| == 1 ==> !([q, q, q] <= delimiter + b)
    ensures Classify(u, delimiter + b) == Literal && Width(u, delimiter + b) == |delimiter + b|
  {
    var s := delimiter + b;
    assert delimiter <= s && s[0] == q;
    DelimiterIs(s, q, delimiter);
    assert s[|delimiter|..] == b;
    RunsOut(s, |delimiter|, delimiter);
  }

  // ------------------------------------------------------------------ comments

  lemma {:induction false} LineEndsAt(s: string, i: nat, n: nat)
    requires i <= n <= |s| && (forall k | i <= k < n :: s[k] != '\n') && (n < |s| ==> s[n] == '\n')
    ensures LineEnd(s, i) == if n < |s| then n + 1 else n
    decreases n - i
  {
    if i < n {
      LineEndsAt(s, i + 1, n);
    }
  }

  /** A comment takes in its line and the line's end, or the rest of the text. */
  lemma {:induction false} CommentEnds(u: Unicode, line: string, rest: string)
    requires '\n' !in line && (rest != "" ==> rest[0] == '\n')
    ensures var s := "#" + (line + rest);
            Classify(u, s) == Comment && Width(u, s) == 1 + |line| + if rest == "" then 0 else 1
  {
    var s := "#" + (line + rest);
    forall k | 1 <= k < 1 + |line| ensures s[k] != '\n' {
      assert s[k] == line[k - 1];
    }
    assert rest != "" ==> s[1 + |line|] == rest[0];
    LineEndsAt(s, 1, 1 + |line|);
  }

  /** Everything but literals, comments and the word `not` goes by one character. */
  lemma {:induction false} OthersStepByOne(u: Unicode, s: string)
    requires s != "" && Classify(u, s) != Literal && Classify(u, s) != Comment && !NotWord(u, s)
    ensures Width(u, s) == 1
  {
    NotWordIff(u, s);
  }

  // ------------------------------------------------------------------ counters

  /** Depth goes up and down with the brackets and never below nothing; a run of
      operators lasts through spaces and ends with anything else. */
  lemma {:induction false} CountersMove(depth: nat, run: nat, k: Kind)
    ensures k == Open ==> NextDepth(depth, k) == depth + 1
    ensures k == Close ==> NextDepth(depth, k) >= 0 && depth - 1 <= NextDepth(depth, k) <= depth
    ensures k == Close && depth > 0 ==> NextDepth(depth, k) < depth
    ensures k != Open && k != Close ==> NextDepth(depth, k) == depth
    ensures k == Unary ==> NextRun(run, k) == run + 1
    ensures k == Space ==> NextRun(run, k) == run
    ensures k != Unary && k != Space ==> NextRun(run, k) == 0
  {
  }
}
