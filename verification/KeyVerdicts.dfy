/** Whom a key is accepted for, told by the table and the header alone, and how long
    a verification is remembered. */
module KeyVerdicts {
  import opened Values
  import opened Roles
  import opened Auth

  // ------------------------------------------------------------------- reading

  /** How a role is written down. */
  function NameOf(role: Role): string {
    match role
    case ComplianceAnalyst => "compliance_analyst"
    case ComplianceOfficer => "compliance_officer"
    case RiskManager => "risk_manager"
    case Engineer => "engineer"
    case Auditor => "auditor"
  }

  /** Reading a role is the inverse of writing one; nothing else reads as a role. */
  lemma {:induction false} RoleReadsBack(text: string, role: Role)
    ensures RoleOf(text) == Some(role) <==> text == NameOf(role)
  {
  }

  predicate AllBlank(s: string, blank: char -> bool) {
    forall i | 0 <= i < |s| :: blank(s[i])
  }

  predicate Trim(s: string, blank: char -> bool) {
    s != "" ==> !blank(s[0]) && !blank(s[|s| - 1])
  }

  lemma {:induction false} StripLeftFrames(s: string, blank: char -> bool) returns (left: string)
    ensures s == left + StripLeft(s, blank) && AllBlank(left, blank)
    ensures StripLeft(s, blank) != "" ==> !blank(StripLeft(s, blank)[0])
  {
    if s != "" && blank(s[0]) {
      var rest := StripLeftFrames(s[1..], blank);
      left := [s[0]] + rest;
      assert s == [s[0]] + s[1..];
    } else {
      left := "";
    }
  }

  lemma {:induction false} StripRightFrames(s: string, blank: char -> bool) returns (right: string)
    ensures s == StripRight(s, blank) + right && AllBlank(right, blank)
    ensures StripRight(s, blank) != "" ==> !blank(StripRight(s, blank)[|StripRight(s, blank)| - 1])
  {
    if s != "" && blank(s[|s| - 1]) {
      var rest := StripRightFrames(s[..|s| - 1], blank);
      right := rest + [s[|s| - 1]];
      assert s == s[..|s| - 1] + [s[|s| - 1]];
    } else {
      right := "";
    }
  }

  lemma {:induction false} StripFrames(s: string, blank: char -> bool) returns (left: string, right: string)
    ensures var core := StripRight(StripLeft(s, blank), blank);
            s == left + core + right && AllBlank(left, blank) && AllBlank(right, blank) && Trim(core, blank)
  {
    left := StripLeftFrames(s, blank);
    right := StripRightFrames(StripLeft(s, blank), blank);
    var core := StripRight(StripLeft(s, blank), blank);
    if core != "" {
      FirstKept(StripLeft(s, blank), core, right);
    }
  }

  lemma {:induction false} FirstKept(s: string, core: string, right: string)
    requires s == core + right && core != ""
    ensures s[0] == core[0]
  {
  }

  lemma {:induction false} StripLeftOf(left: string, rest: string, blank: char -> bool)
    requires AllBlank(left, blank) && (rest != "" ==> !blank(rest[0]))
    ensures StripLeft(left + rest, blank) == rest
  {
    if left == "" {
      assert left + rest == rest;
    } else {
      assert (left + rest)[1..] == left[1..] + rest;
      StripLeftOf(left[1..], rest, blank);
    }
  }

  lemma {:induction false} StripRightOf(rest: string, right: string, blank: char -> bool)
    requires AllBlank(right, blank) && (rest != "" ==> !blank(rest[|rest| - 1]))
    ensures StripRight(rest + right, blank) == rest
  {
    if right == "" {
      assert rest + right == rest;
    } else {
      var shorter := right[..|right| - 1];
      assert (rest + right)[..|rest + right| - 1] == rest + shorter;
      StripRightOf(rest, shorter, blank);
    }
  }

  /** The header is `Bearer`, a space, and this key with blanks around it at most. */
  ghost predicate Bears(header: string, key: string, blank: char -> bool) {
    && "cl_" <= key && Trim(key, blank)
    && exists left, right ::
         header == "Bearer " + (left + key + right) && AllBlank(left, blank) && AllBlank(right, blank)
  }

  lemma {:induction false} PresentedIsBorne(header: string, key: string, blank: char -> bool)
    requires Presented(header, blank) == Some(key)
    ensures Bears(header, key, blank)
  {
    var text := header[|"Bearer "|..];
    var left, right := StripFrames(text, blank);
    HeaderSplits(header, "Bearer ");
    assert header == "Bearer " + (left + key + right);
  }

  lemma {:induction false} HeaderSplits(header: string, start: string)
    requires start <= header
    ensures header == start + header[|start|..]
  {
  }

  lemma {:induction false} BorneIsPresented(header: string, left: string, key: string, right: string,
                                            blank: char -> bool)
    requires "cl_" <= key && Trim(key, blank) && AllBlank(left, blank) && AllBlank(right, blank)
    requires header == "Bearer " + (left + key + right)
    ensures Presented(header, blank) == Some(key)
  {
    assert header[|"Bearer "|..] == left + (key + right);
    assert (key + right)[0] == key[0];
    StripLeftOf(left, key + right, blank);
    StripRightOf(key, right, blank);
  }

  lemma {:induction false} PresentedIff(header: string, key: string, blank: char -> bool)
    ensures Presented(header, blank) == Some(key) <==> Bears(header, key, blank)
  {
    if Presented(header, blank) == Some(key) {
      PresentedIsBorne(header, key, blank);
    }
    if Bears(header, key, blank) {
      var left, right :| header == "Bearer " + (left + key + right) && AllBlank(left, blank) && AllBlank(right, blank);
      BorneIsPresented(header, left, key, right, blank);
    }
  }

  // ------------------------------------------------------------------ verdicts

  /** The row is found by the key's first sixteen characters, or by all of a shorter key. */
  predicate FoundBy(prefix: string, key: string) {
    prefix <= key && |prefix| <= 16 && (|prefix| < 16 ==> prefix == key)
  }

  /** The row a key was issued as is live and its secret is this key's. */
  predicate Backs(p: Primitives, rows: Rows, prefix: string, key: string) {
    && prefix in rows && FoundBy(prefix, key)
    && rows[prefix].revokedAt.None? && p.verify(rows[prefix].hashedSecret, key)
  }

  /** The credentials are the row's own, whatever the key or a memory says. */
  predicate Stands(row: Row, c: Credentials) {
    && c.tenant == row.tenant && c.keyId == row.keyId && c.environment == row.environment
    && c.actor.id == row.keyId && row.role == NameOf(c.actor.role)
  }

  lemma {:induction false} PrefixFinds(prefix: string, key: string)
    ensures FoundBy(prefix, key) <==> prefix == Prefix(key)
  {
  }

  lemma {:induction false} CredentialsIff(row: Row, c: Credentials)
    ensures CredentialsOf(row) == Accepted(c) <==> Stands(row, c)
    ensures CredentialsOf(row) == Broken <==> forall role :: row.role != NameOf(role)
    ensures CredentialsOf(row) != Refused
  {
    forall role: Role ensures RoleOf(row.role) == Some(role) <==> row.role == NameOf(role) {
      RoleReadsBack(row.role, role);
    }
  }

  ghost predicate Grants(p: Primitives, rows: Rows, header: string, c: Credentials) {
    exists key, prefix ::
      Bears(header, key, p.blank) && Backs(p, rows, prefix, key) && Stands(rows[prefix], c)
  }

  lemma {:induction false} AcceptsIff(p: Primitives, rows: Rows, header: string, c: Credentials)
    ensures Plainly(p, rows, header) == Accepted(c) <==> Grants(p, rows, header, c)
  {
    var presented := Presented(header, p.blank);
    forall key ensures Presented(header, p.blank) == Some(key) <==> Bears(header, key, p.blank) {
      PresentedIff(header, key, p.blank);
    }
    forall prefix, key ensures FoundBy(prefix, key) <==> prefix == Prefix(key) {
      PrefixFinds(prefix, key);
    }
    forall row ensures CredentialsOf(row) == Accepted(c) <==> Stands(row, c) {
      CredentialsIff(row, c);
    }
    if presented.Some? && Plainly(p, rows, header) == Accepted(c) {
      assert Backs(p, rows, Prefix(presented.value), presented.value);
    }
  }

  /** Whatever happened before and whatever is remembered, a header is accepted for
      these credentials exactly if it bears a key whose live row says so. */
  lemma {:induction false} AuthenticatesIff(p: Primitives, steps: seq<Step>, header: string, now: int, c: Credentials)
    requires Injective(p.digest)
    ensures Quickly(p, After(p, steps), header, now) == Accepted(c) <==> Grants(p, After(p, steps).rows, header, c)
  {
    CacheInvisible(p, steps, header, now);
    AcceptsIff(p, After(p, steps).rows, header, c);
  }

  // ------------------------------------------------------------------ memories

  /** A key verified now is remembered for the next sixty seconds, and no longer. */
  lemma {:induction false} RememberedForAMinute(p: Primitives, rows: Rows, verified: Verifications, header: string,
                                                key: string, now: int, later: int)
    requires Bears(header, key, p.blank) && Plainly(p, rows, header).Accepted? && !Fresh(p, verified, key, now)
    ensures Fresh(p, Learned(p, rows, verified, header, now), key, later) <==> later < now + 60
  {
    PresentedIff(header, key, p.blank);
  }

  /** Each memory is filed under the prefix of the key it is about. */
  ghost predicate Filed(p: Primitives, verified: Verifications) {
    forall d | d in verified :: exists key :: p.digest(key) == d && FoundBy(verified[d].prefix, key)
  }

  lemma {:induction false} StepFiled(p: Primitives, s: State, step: Step)
    requires Filed(p, s.verified)
    ensures Filed(p, Next(p, s, step).verified)
  {
    var verified := Next(p, s, step).verified;
    forall d | d in verified ensures exists key :: p.digest(key) == d && FoundBy(verified[d].prefix, key) {
      if d !in s.verified || s.verified[d] != verified[d] {
        var key := Presented(step.header, p.blank).value;
        PrefixFinds(verified[d].prefix, key);
        assert p.digest(key) == d && FoundBy(verified[d].prefix, key);
      }
    }
  }

  lemma {:induction false} AlwaysFiled(p: Primitives, steps: seq<Step>)
    ensures Filed(p, After(p, steps).verified)
  {
    if steps != [] {
      AlwaysFiled(p, steps[..|steps| - 1]);
      StepFiled(p, After(p, steps[..|steps| - 1]), steps[|steps| - 1]);
    }
  }

  /** Evicting a prefix forgets the keys under it and no other, after any run. */
  lemma {:induction false} EvictionForgets(p: Primitives, steps: seq<Step>, prefix: string, key: string, now: int)
    requires Injective(p.digest)
    ensures Fresh(p, After(p, steps + [EvictPrefix(prefix)]).verified, key, now)
       <==> Fresh(p, After(p, steps).verified, key, now) && !FoundBy(prefix, key)
  {
    var s, d := After(p, steps), p.digest(key);
    assert (steps + [EvictPrefix(prefix)])[..|steps|] == steps;
    AlwaysFiled(p, steps);
    if d in s.verified {
      var known :| p.digest(known) == d && FoundBy(s.verified[d].prefix, known);
      assert known == key;
      PrefixFinds(s.verified[d].prefix, key);
      PrefixFinds(prefix, key);
    }
  }

  /** No memory outlives the latest authentication by more than a minute. */
  lemma {:induction false} MemoriesLapse(p: Primitives, steps: seq<Step>, latest: int)
    requires forall s | s in steps && s.Authenticate? :: s.now <= latest
    ensures forall d | d in After(p, steps).verified :: After(p, steps).verified[d].expires <= latest + 60
  {
    if steps != [] {
      MemoriesLapse(p, steps[..|steps| - 1], latest);
    }
  }
}
