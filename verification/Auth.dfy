/** API keys: whom a presented key stands for, with and without remembered
    verifications.

    Hashing, digesting and what counts as white space are parameters. */
module Auth {
  import opened Values
  import opened Roles

  const PREFIX_LENGTH := 16
  const KEY_CACHE_TTL: int := 60

  datatype Row = Row(keyId: string, tenant: string, hashedSecret: string, environment: string, role: string,
                     revokedAt: Option<int>)

  /** The key table, by its unique prefix column. */
  type Rows = map<string, Row>

  /** When a verification lapses, and the prefix it can be evicted by. */
  datatype Remembered = Remembered(expires: int, prefix: string)

  type Verifications = map<string, Remembered>

  datatype Credentials = Credentials(tenant: string, keyId: string, environment: string, actor: Actor)

  /** `Broken` is a role the row carries but no role table knows: a host ValueError. */
  datatype Verdict = Accepted(credentials: Credentials) | Refused | Broken

  datatype Primitives = Primitives(verify: (string, string) -> bool, digest: string -> string, blank: char -> bool)

  ghost predicate Injective(f: string -> string) {
    forall a, b | f(a) == f(b) :: a == b
  }

  // -------------------------------------------------------------- the header

  function StripLeft(s: string, blank: char -> bool): string {
    if s != "" && blank(s[0]) then StripLeft(s[1..], blank) else s
  }

  function StripRight(s: string, blank: char -> bool): string {
    if s != "" && blank(s[|s| - 1]) then StripRight(s[..|s| - 1], blank) else s
  }

  function Prefix(presented: string): string {
    if |presented| < PREFIX_LENGTH then presented else presented[..PREFIX_LENGTH]
  }

  /** The key a header presents, if it presents one. */
  function Presented(header: string, blank: char -> bool): Option<string> {
    if !("Bearer " <= header) then None
    else
      var presented := StripRight(StripLeft(header[|"Bearer "|..], blank), blank);
      if "cl_" <= presented then Some(presented) else None
  }

  function RoleOf(text: string): Option<Role> {
    match text
    case "compliance_analyst" => Some(ComplianceAnalyst)
    case "compliance_officer" => Some(ComplianceOfficer)
    case "risk_manager" => Some(RiskManager)
    case "engineer" => Some(Engineer)
    case "auditor" => Some(Auditor)
    case _ => None
  }

  function CredentialsOf(row: Row): Verdict {
    if RoleOf(row.role).None? then Broken
    else Accepted(Credentials(row.tenant, row.keyId, row.environment, Actor(row.keyId, RoleOf(row.role).value)))
  }

  // ----------------------------------------------------- without the cache

  /** The row a presented key names, if it names a live one. */
  function LiveRow(rows: Rows, presented: string): Option<Row> {
    if Prefix(presented) in rows && rows[Prefix(presented)].revokedAt.None? then Some(rows[Prefix(presented)]) else None
  }

  /** The plain meaning of authenticating: always verify. */
  function Plainly(p: Primitives, rows: Rows, header: string): Verdict {
    var presented := Presented(header, p.blank);
    if presented.None? then Refused
    else
      var row := LiveRow(rows, presented.value);
      if row.None? || !p.verify(row.value.hashedSecret, presented.value) then Refused else CredentialsOf(row.value)
  }

  // --------------------------------------------------------- with the cache

  predicate Fresh(p: Primitives, verified: Verifications, presented: string, now: int) {
    p.digest(presented) in verified && verified[p.digest(presented)].expires > now
  }

  function Evict(verified: Verifications, prefix: string): Verifications {
    map d | d in verified && verified[d].prefix != prefix :: verified[d]
  }

  /** What the cache holds after authenticating. */
  function Learned(p: Primitives, rows: Rows, verified: Verifications, header: string, now: int): Verifications {
    var presented := Presented(header, p.blank);
    if presented.None? then verified
    else
      var row := LiveRow(rows, presented.value);
      if row.None? || Fresh(p, verified, presented.value, now) then verified
      else if !p.verify(row.value.hashedSecret, presented.value) then verified
      else verified[p.digest(presented.value) := Remembered(now + KEY_CACHE_TTL, Prefix(presented.value))]
  }

  /** Every remembered digest is that of a key that still verifies against its row. */
  ghost predicate Trustworthy(p: Primitives, rows: Rows, verified: Verifications) {
    forall d | d in verified :: exists key :: Vouched(p, rows, key, d)
  }

  predicate Vouched(p: Primitives, rows: Rows, key: string, d: string) {
    p.digest(key) == d && Prefix(key) in rows && p.verify(rows[Prefix(key)].hashedSecret, key)
  }

  /** The key service: the table and one worker's memory. */
  class Authenticator {
    const p: Primitives
    var rows: Rows
    var verified: Verifications

    constructor (p: Primitives)
      ensures this.p == p && rows == map[] && verified == map[]
    {
      this.p := p;
      rows, verified := map[], map[];
    }

    method Authenticate(header: string, now: int) returns (v: Verdict)
      modifies this`verified
      ensures v == Quickly(p, State(rows, old(verified)), header, now)
      ensures verified == Learned(p, rows, old(verified), header, now)
    {
      var presented := Presented(header, p.blank);
      if presented.None? {
        return Refused;
      }
      var key := presented.value;
      var prefix := Prefix(key);
      if prefix !in rows {
        return Refused;
      }
      var row := rows[prefix];
      if row.revokedAt.Some? {
        return Refused;
      }
      var digest := p.digest(key);
      var remembered := digest in verified && verified[digest].expires > now;
      if !remembered {
        if !p.verify(row.hashedSecret, key) {
          return Refused;
        }
        verified := verified[digest := Remembered(now + KEY_CACHE_TTL, prefix)];
      }
      v := CredentialsOf(row);
    }

    method RevokeFromCache(prefix: string)
      modifies this`verified
      ensures verified == Evict(old(verified), prefix)
    {
      var doomed := set d | d in verified && verified[d].prefix == prefix;
      ghost var all := verified;
      while doomed != {}
        invariant forall d | d in doomed :: d in verified && all[d].prefix == prefix
        invariant forall d | d in verified :: d in all && verified[d] == all[d]
        invariant forall d | d in all && d !in verified :: all[d].prefix == prefix
        invariant forall d | d in verified && d !in doomed :: all[d].prefix != prefix
        decreases doomed
      {
        var d :| d in doomed;
        verified := verified - {d};
        doomed := doomed - {d};
      }
      assert verified == Evict(all, prefix);
    }
  }

  lemma {:induction false} RememberedVerifies(p: Primitives, rows: Rows, verified: Verifications, key: string)
    requires Injective(p.digest) && Trustworthy(p, rows, verified) && p.digest(key) in verified
    ensures Prefix(key) in rows && p.verify(rows[Prefix(key)].hashedSecret, key)
  {
    var known :| Vouched(p, rows, known, p.digest(key));
    assert known == key;
  }

  lemma {:induction false} LearnedTrustworthy(p: Primitives, rows: Rows, verified: Verifications, header: string,
                                              now: int)
    requires Trustworthy(p, rows, verified)
    ensures Trustworthy(p, rows, Learned(p, rows, verified, header, now))
  {
    var after := Learned(p, rows, verified, header, now);
    forall d | d in after ensures exists key :: Vouched(p, rows, key, d) {
      if d !in verified {
        assert Vouched(p, rows, Presented(header, p.blank).value, d);
      }
    }
  }

  // ----------------------------------------------------------------- every run

  datatype Step =
    | Issue(prefix: string, row: Row)
    | Revoke(prefix: string, at: int)
    | EvictPrefix(prefix: string)
    | ClearCache
    | Authenticate(header: string, now: int)

  datatype State = State(rows: Rows, verified: Verifications)

  /** Prefixes are unique, and a row is never deleted or given another hash. */
  function Next(p: Primitives, s: State, step: Step): State {
    match step
    case Issue(prefix, row) => if prefix in s.rows then s else s.(rows := s.rows[prefix := row])
    case Revoke(prefix, at) =>
      if prefix in s.rows then s.(rows := s.rows[prefix := s.rows[prefix].(revokedAt := Some(at))]) else s
    case EvictPrefix(prefix) => s.(verified := Evict(s.verified, prefix))
    case ClearCache => s.(verified := map[])
    case Authenticate(header, now) => s.(verified := Learned(p, s.rows, s.verified, header, now))
  }

  function After(p: Primitives, steps: seq<Step>): State {
    if steps == [] then State(map[], map[]) else Next(p, After(p, steps[..|steps| - 1]), steps[|steps| - 1])
  }

  /** What authenticating with the cache answers. */
  function Quickly(p: Primitives, s: State, header: string, now: int): Verdict {
    var presented := Presented(header, p.blank);
    if presented.None? then Refused
    else
      var row := LiveRow(s.rows, presented.value);
      if row.None? then Refused
      else if Fresh(p, s.verified, presented.value, now) then CredentialsOf(row.value)
      else if p.verify(row.value.hashedSecret, presented.value) then CredentialsOf(row.value)
      else Refused
  }

  lemma {:induction false} StepTrustworthy(p: Primitives, s: State, step: Step)
    requires Trustworthy(p, s.rows, s.verified)
    ensures Trustworthy(p, Next(p, s, step).rows, Next(p, s, step).verified)
  {
    var s' := Next(p, s, step);
    if step.Authenticate? {
      LearnedTrustworthy(p, s.rows, s.verified, step.header, step.now);
    } else {
      forall d | d in s'.verified ensures exists key :: Vouched(p, s'.rows, key, d) {
        var key :| Vouched(p, s.rows, key, d);
        assert Vouched(p, s'.rows, key, d);
      }
    }
  }

  lemma {:induction false} AlwaysTrustworthy(p: Primitives, steps: seq<Step>)
    ensures Trustworthy(p, After(p, steps).rows, After(p, steps).verified)
  {
    if steps != [] {
      AlwaysTrustworthy(p, steps[..|steps| - 1]);
      StepTrustworthy(p, After(p, steps[..|steps| - 1]), steps[|steps| - 1]);
    }
  }

  /** After any run, at any clock reading, the cache changes no verdict. */
  lemma {:induction false} CacheInvisible(p: Primitives, steps: seq<Step>, header: string, now: int)
    requires Injective(p.digest)
    ensures Quickly(p, After(p, steps), header, now) == Plainly(p, After(p, steps).rows, header)
  {
    var s := After(p, steps);
    AlwaysTrustworthy(p, steps);
    var presented := Presented(header, p.blank);
    if presented.Some? && Fresh(p, s.verified, presented.value, now) {
      RememberedVerifies(p, s.rows, s.verified, presented.value);
    }
  }

  lemma {:induction false} StaysRevoked(p: Primitives, steps: seq<Step>, more: seq<Step>, prefix: string)
    requires prefix in After(p, steps).rows && After(p, steps).rows[prefix].revokedAt.Some?
    ensures prefix in After(p, steps + more).rows && After(p, steps + more).rows[prefix].revokedAt.Some?
  {
    if more == [] {
      assert steps + more == steps;
    } else {
      StaysRevoked(p, steps, more[..|more| - 1], prefix);
      assert (steps + more)[..|steps + more| - 1] == steps + more[..|more| - 1];
    }
  }

  /** A revoked key is refused from then on, although it may still be remembered. */
  lemma {:induction false} RevocationIsFinal(p: Primitives, steps: seq<Step>, at: int, more: seq<Step>, header: string,
                                             now: int)
    requires Presented(header, p.blank).Some? && Prefix(Presented(header, p.blank).value) in After(p, steps).rows
    ensures var revoked := steps + [Revoke(Prefix(Presented(header, p.blank).value), at)];
            Quickly(p, After(p, revoked + more), header, now) == Refused
  {
    var prefix := Prefix(Presented(header, p.blank).value);
    var revoked := steps + [Revoke(prefix, at)];
    assert revoked[..|revoked| - 1] == steps;
    StaysRevoked(p, revoked, more, prefix);
  }
}
