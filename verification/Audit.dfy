/** The tenant's audit trail: a hash chain, appended to under a lock and anchored by
    signed checkpoints. SHA-256 over the canonical form is any function of the hashed
    fields; where it matters that it does not collide, a lemma says so. */
module Audit {
  import opened Values
  import opened Sorting

  type Hash = string

  const GENESIS: Hash := "sha256:0000000000000000000000000000000000000000000000000000000000000000"

  /** Everything the hash covers. */
  datatype Content = Content(id: string, tenant: string, eventType: string, occurredAt: int,
                             actor: string, subject: string, payload: string, prev: Hash)

  datatype Record = Record(content: Content, hash: Hash, recordedAt: int)

  type Hasher = Content -> Hash

  ghost predicate Injective(h: Hasher) {
    forall x, y :: h(x) == h(y) ==> x == y
  }

  ghost predicate NeverGenesis(h: Hasher) {
    forall x :: h(x) != GENESIS
  }

  // -------------------------------------------------------------- verification

  function Expected(rs: seq<Record>, i: nat): Hash
    requires i <= |rs|
  {
    if i == 0 then GENESIS else rs[i - 1].hash
  }

  predicate ValidAt(h: Hasher, rs: seq<Record>, i: nat)
    requires i < |rs|
  {
    rs[i].content.prev == Expected(rs, i) && h(rs[i].content) == rs[i].hash
  }

  predicate Verifies(h: Hasher, rs: seq<Record>) {
    forall i | 0 <= i < |rs| :: ValidAt(h, rs, i)
  }

  datatype Verification = Verification(ok: bool, checked: nat, brokenAt: Option<string>)

  /** Reports the length of the longest valid prefix, and the first record past it. */
  method VerifyChain(h: Hasher, rs: seq<Record>) returns (v: Verification)
    ensures v.checked <= |rs| && Verifies(h, rs[..v.checked])
    ensures v.ok <==> Verifies(h, rs)
    ensures v.ok ==> v == Verification(true, |rs|, None)
    ensures !v.ok ==> v.checked < |rs| && !ValidAt(h, rs, v.checked) && v.brokenAt == Some(rs[v.checked].content.id)
    ensures forall n | v.checked < n <= |rs| :: !Verifies(h, rs[..n])
  {
    var expected := GENESIS;
    for i := 0 to |rs|
      invariant expected == Expected(rs, i)
      invariant forall j | 0 <= j < i :: ValidAt(h, rs, j)
    {
      if rs[i].content.prev != expected || h(rs[i].content) != rs[i].hash {
        PrefixStops(h, rs, i);
        return Verification(false, i, Some(rs[i].content.id));
      }
      expected := rs[i].hash;
    }
    assert rs[..|rs|] == rs;
    return Verification(true, |rs|, None);
  }

  lemma {:induction false} PrefixStops(h: Hasher, rs: seq<Record>, i: nat)
    requires i < |rs| && !ValidAt(h, rs, i) && forall j | 0 <= j < i :: ValidAt(h, rs, j)
    ensures Verifies(h, rs[..i])
    ensures forall n | i < n <= |rs| :: !Verifies(h, rs[..n])
  {
    forall j | 0 <= j < i ensures ValidAt(h, rs[..i], j) {
      assert ValidAt(h, rs, j);
    }
    forall n | i < n <= |rs| ensures !Verifies(h, rs[..n]) {
      assert !ValidAt(h, rs[..n], i);
    }
  }

  // ----------------------------------------------------------------- appending

  /** A record as `append` writes it after the given tail. */
  function Chained(h: Hasher, c: Content, prev: Hash, recordedAt: int): Record {
    var content := c.(prev := prev);
    Record(content, h(content), recordedAt)
  }

  function Head(rs: seq<Record>): Hash {
    Expected(rs, |rs|)
  }

  lemma {:induction false} AppendVerifies(h: Hasher, rs: seq<Record>, c: Content, recordedAt: int)
    requires Verifies(h, rs)
    ensures Verifies(h, rs + [Chained(h, c, Head(rs), recordedAt)])
  {
    var longer := rs + [Chained(h, c, Head(rs), recordedAt)];
    forall i | 0 <= i < |longer| ensures ValidAt(h, longer, i) {
      if i < |rs| {
        assert ValidAt(h, rs, i);
      }
    }
  }

  /** A chain that verifies has no fork: no two records follow the same one. */
  lemma {:induction false} NoFork(h: Hasher, rs: seq<Record>, i: nat, j: nat)
    requires Injective(h) && NeverGenesis(h) && Verifies(h, rs) && i < j < |rs|
    ensures rs[i].content.prev != rs[j].content.prev
  {
    assert ValidAt(h, rs, i) && ValidAt(h, rs, j) && ValidAt(h, rs, j - 1);
    if i > 0 {
      assert ValidAt(h, rs, i - 1);
      NoFork(h, rs, i - 1, j - 1);
    }
  }

  /** No earlier point of a chain has the hash its head has. */
  lemma {:induction false} HeadIsNew(h: Hasher, rs: seq<Record>, k: nat)
    requires Injective(h) && NeverGenesis(h) && Verifies(h, rs) && k < |rs|
    ensures Expected(rs, k) != Head(rs)
  {
    assert ValidAt(h, rs, |rs| - 1);
    if k > 0 {
      assert ValidAt(h, rs, k - 1);
      NoFork(h, rs, k - 1, |rs| - 1);
    }
  }

  // ------------------------------------------------------------- reading back

  /** `order_by("recorded_at", "id")`. */
  predicate Earlier(a: Record, b: Record) {
    a.recordedAt < b.recordedAt || (a.recordedAt == b.recordedAt && TextLess(a.content.id, b.content.id))
  }

  /** A listing of the rows in that order. */
  ghost predicate InOrder(view: seq<Record>, rs: seq<Record>) {
    multiset(view) == multiset(rs) && Ascending(Earlier, view)
  }

  lemma {:induction false} EarlierIsStrict()
    ensures StrictOrder(Earlier)
  {
    forall x ensures !Earlier(x, x) {
      TextLessIrreflexive(x.content.id);
    }
    forall x, y, z | Earlier(x, y) && Earlier(y, z) ensures Earlier(x, z) {
      if x.recordedAt == y.recordedAt == z.recordedAt {
        TextLessTransitive(x.content.id, y.content.id, z.content.id);
      }
    }
  }

  /** A record chained to the head, read back in front of others, breaks the chain. */
  lemma {:induction false} OutOfPlaceBreaks(h: Hasher, rs: seq<Record>, r: Record, k: nat)
    requires Injective(h) && NeverGenesis(h) && Verifies(h, rs) && k < |rs| && r.content.prev == Head(rs)
    ensures !Verifies(h, rs[..k] + [r] + rs[k..])
  {
    var view := rs[..k] + [r] + rs[k..];
    assert view[k] == r && Expected(view, k) == Expected(rs, k);
    HeadIsNew(h, rs, k);
    assert !ValidAt(h, view, k);
  }

  lemma {:induction false} Placed(rs: seq<Record>, r: Record) returns (k: nat)
    ensures k <= |rs| && Place(Earlier, r, rs) == rs[..k] + [r] + rs[k..]
    ensures forall i | 0 <= i < k :: !Earlier(r, rs[i])
    ensures k < |rs| ==> Earlier(r, rs[k])
  {
    k := 0;
    if rs != [] && !Earlier(r, rs[0]) {
      var later := Placed(rs[1..], r);
      k := later + 1;
      assert [rs[0]] + (rs[1..][..later] + [r] + rs[1..][later..]) == rs[..k] + [r] + rs[k..];
    }
  }

  lemma {:induction false} NewIdIsOrdered(rs: seq<Record>, r: Record, x: Record)
    requires x in rs && forall y | y in rs :: y.content.id != r.content.id
    ensures Earlier(x, r) <==> !Earlier(r, x)
  {
    TextLessTotal(x.content.id, r.content.id);
    EarlierIsStrict();
  }

  lemma {:induction false} ReadBack(rs: seq<Record>, r: Record, view: seq<Record>)
    requires Ascending(Earlier, rs) && InOrder(view, rs + [r]) && forall x | x in rs :: x.content.id != r.content.id
    ensures view == Place(Earlier, r, rs)
  {
    EarlierIsStrict();
    forall x | x in rs ensures Earlier(r, x) || Earlier(x, r) {
      NewIdIsOrdered(rs, r, x);
    }
    PlaceAscends(Earlier, r, rs);
    PlaceKeeps(Earlier, r, rs);
    AscendingUnique(Earlier, view, Place(Earlier, r, rs));
  }

  /** Rows are read back by `recorded_at`, then id. A record just chained to the head
      leaves the chain verifying exactly when everything already there is earlier in
      that order. */
  lemma {:induction false} AppendReadsBackIff(h: Hasher, rs: seq<Record>, r: Record, view: seq<Record>)
    requires Injective(h) && NeverGenesis(h) && Verifies(h, rs) && Ascending(Earlier, rs)
    requires r.content.prev == Head(rs) && r.hash == h(r.content) && forall x | x in rs :: x.content.id != r.content.id
    requires InOrder(view, rs + [r])
    ensures Verifies(h, view) <==> forall x | x in rs :: Earlier(x, r)
  {
    ReadBack(rs, r, view);
    var k := Placed(rs, r);
    if k == |rs| {
      assert view == rs + [Chained(h, r.content, Head(rs), r.recordedAt)];
      AppendVerifies(h, rs, r.content, r.recordedAt);
      forall x | x in rs ensures Earlier(x, r) {
        NewIdIsOrdered(rs, r, x);
      }
    } else {
      OutOfPlaceBreaks(h, rs, r, k);
      NewIdIsOrdered(rs, r, rs[k]);
    }
  }

  /** Two records of one instant, the later one with the smaller id: each chained to
      the head when written, and read back the other way round. */
  lemma {:induction false} TieBreaksChain(h: Hasher)
    requires Injective(h) && NeverGenesis(h)
    ensures var a := Chained(h, Content("b", "t", "e", 0, "", "", "", ""), GENESIS, 0);
            var r := Chained(h, Content("a", "t", "e", 0, "", "", "", ""), a.hash, 0);
            Verifies(h, [a, r]) && InOrder([r, a], [a] + [r]) && !Verifies(h, [r, a])
  {
    var a := Chained(h, Content("b", "t", "e", 0, "", "", "", ""), GENESIS, 0);
    var r := Chained(h, Content("a", "t", "e", 0, "", "", "", ""), a.hash, 0);
    assert Verifies(h, [a]) && [a] + [r] == [a, r];
    AppendVerifies(h, [a], r.content, 0);
    assert Earlier(r, a) && [r, a][1..] == [a] && [a][1..] == [];
    assert multiset([r, a]) == multiset([a] + [r]);
    OutOfPlaceBreaks(h, [a], r, 0);
    assert [a][..0] + [r] + [a][0..] == [r, a];
  }

  // --------------------------------------------------------------- checkpoints

  datatype Checkpoint = Checkpoint(length: nat, head: Hash, signedAt: int, signature: string)

  datatype Anchoring = Signed | Unanchored | Broken | Raised

  /** `verify_signature` for one tenant and one public key. */
  type Verifier = Checkpoint -> bool

  /** A checkpoint over no records would make `hashes[-1]` raise. */
  function Anchor(verify: Option<Verifier>, latest: Option<Checkpoint>, rs: seq<Record>): Anchoring {
    if verify.None? || latest.None? then Unanchored
    else
      var cp := latest.value;
      if !verify.value(cp) then Broken
      else if |rs| < cp.length then Broken
      else if cp.length == 0 then Raised
      else if rs[cp.length - 1].hash != cp.head then Broken
      else Signed
  }

  /** The chain as it stood when something was signed. */
  datatype Signing = Signing(length: nat, head: Hash, chain: seq<Record>)

  ghost predicate Honest(h: Hasher, s: Signing) {
    Verifies(h, s.chain) && s.length == |s.chain| && s.chain != [] && s.head == Head(s.chain)
  }

  /** Only what was signed with the private key verifies. */
  ghost predicate OnlyAuthentic(verify: Verifier, signings: seq<Signing>) {
    forall cp | verify(cp) :: exists s | s in signings :: s.length == cp.length && s.head == cp.head
  }

  /** Two verifying chains that end in the same hash are the same, field by field. */
  lemma {:induction false} SameHeadSameChain(h: Hasher, a: seq<Record>, b: seq<Record>)
    requires Injective(h) && Verifies(h, a) && Verifies(h, b) && |a| == |b| && Head(a) == Head(b)
    ensures forall i | 0 <= i < |a| :: a[i].content == b[i].content && a[i].hash == b[i].hash
  {
    if a != [] {
      var n := |a| - 1;
      assert ValidAt(h, a, n) && ValidAt(h, b, n);
      assert a[n].content == b[n].content;
      VerifiesPrefix(h, a, n);
      VerifiesPrefix(h, b, n);
      assert Head(a[..n]) == a[n].content.prev && Head(b[..n]) == b[n].content.prev;
      SameHeadSameChain(h, a[..n], b[..n]);
      forall i | 0 <= i < |a| ensures a[i].content == b[i].content && a[i].hash == b[i].hash {
        if i < n {
          assert a[i] == a[..n][i] && b[i] == b[..n][i];
        }
      }
    }
  }

  lemma {:induction false} VerifiesPrefix(h: Hasher, rs: seq<Record>, n: nat)
    requires Verifies(h, rs) && n <= |rs|
    ensures Verifies(h, rs[..n])
  {
    forall i | 0 <= i < n ensures ValidAt(h, rs[..n], i) {
      assert ValidAt(h, rs, i);
    }
  }

  /** Whatever has since been done to the database: if the records verify as a chain
      and anchoring reports them signed, the signed prefix is what was signed. */
  lemma {:induction false} SignedPrefixUnchanged(h: Hasher, verify: Verifier, signings: seq<Signing>,
                                                 cp: Checkpoint, rs: seq<Record>) returns (s: Signing)
    requires Injective(h) && OnlyAuthentic(verify, signings) && forall s | s in signings :: Honest(h, s)
    requires Verifies(h, rs) && Anchor(Some(verify), Some(cp), rs) == Signed
    ensures s in signings && s.length == cp.length <= |rs| && |s.chain| == cp.length
    ensures forall i | 0 <= i < cp.length :: rs[i].content == s.chain[i].content && rs[i].hash == s.chain[i].hash
  {
    s :| s in signings && s.length == cp.length && s.head == cp.head;
    var prefix := rs[..cp.length];
    VerifiesPrefix(h, rs, cp.length);
    SameHeadSameChain(h, prefix, s.chain);
    forall i | 0 <= i < cp.length ensures rs[i].content == s.chain[i].content && rs[i].hash == s.chain[i].hash {
      assert rs[i] == prefix[i];
    }
  }

  /** The hashed fields of the signed records are still there, in place. */
  ghost predicate StillThere(chain: seq<Record>, rs: seq<Record>) {
    |chain| <= |rs| && forall i | 0 <= i < |chain| :: rs[i].content == chain[i].content && rs[i].hash == chain[i].hash
  }

  /** Each status, on arbitrary rows: without a key or a checkpoint the trail is
      unanchored; with both it is signed only if the signature verifies and the row the
      checkpoint ends at is there with the signed hash, and otherwise it is broken. */
  lemma {:induction false} AnchoringCases(verify: Verifier, cp: Checkpoint, latest: Option<Checkpoint>, rs: seq<Record>)
    ensures Anchor(None, latest, rs) == Unanchored && Anchor(Some(verify), None, rs) == Unanchored
    ensures var a := Anchor(Some(verify), Some(cp), rs);
            && a != Unanchored
            && (a == Raised <==> verify(cp) && cp.length == 0)
            && (a == Signed <==> verify(cp) && 1 <= cp.length <= |rs| && rs[cp.length - 1].hash == cp.head)
            && (a == Broken <==> a != Raised && a != Signed)
  {
  }

  /** With an authentic checkpoint, on any rows that verify as a chain: signed if the
      signed records are all still there, in every hashed field, and broken if any was
      changed, removed or put elsewhere. */
  lemma {:induction false} SignedIffStillThere(h: Hasher, verify: Verifier, cp: Checkpoint, s: Signing, rs: seq<Record>)
    requires Injective(h) && Honest(h, s) && s.length == cp.length && s.head == cp.head
    requires verify(cp) && Verifies(h, rs)
    ensures Anchor(Some(verify), Some(cp), rs) == if StillThere(s.chain, rs) then Signed else Broken
  {
    if Anchor(Some(verify), Some(cp), rs) == Signed {
      var prefix := rs[..cp.length];
      VerifiesPrefix(h, rs, cp.length);
      SameHeadSameChain(h, prefix, s.chain);
      forall i | 0 <= i < cp.length ensures rs[i].content == s.chain[i].content && rs[i].hash == s.chain[i].hash {
        assert rs[i] == prefix[i];
      }
    }
  }

  // ------------------------------------------------------------ the honest store

  /** One tenant's rows and checkpoints, as `append` and `write_checkpoint` leave
      them, with every signing remembered. */
  class AuditTrail {
    const hasher: Hasher
    const verify: Verifier
    var rows: seq<Record>
    var checkpoints: seq<Checkpoint>
    ghost var signings: seq<Signing>

    constructor (hasher: Hasher, verify: Verifier)
      ensures Valid() && rows == [] && checkpoints == [] && signings == []
      ensures this.hasher == hasher && this.verify == verify
    {
      this.hasher := hasher;
      this.verify := verify;
      rows := [];
      checkpoints := [];
      signings := [];
    }

    ghost predicate Valid()
      reads this
    {
      && Verifies(hasher, rows)
      && (forall s | s in signings :: Honest(hasher, s))
      && forall cp | cp in checkpoints :: Matches(cp, rows)
    }

    /** Adds a record whose predecessor is the head. */
    method Append(c: Content, recordedAt: int) returns (r: Record)
      requires Valid()
      modifies this`rows
      ensures Valid()
      ensures r == Chained(hasher, c, Head(old(rows)), recordedAt) && rows == old(rows) + [r]
    {
      var prev := if rows == [] then GENESIS else rows[|rows| - 1].hash;
      r := Chained(hasher, c, prev, recordedAt);
      AppendVerifies(hasher, rows, c, recordedAt);
      rows := rows + [r];
    }

    /** Sign the current head; an empty chain is not signed. */
    method WriteCheckpoint(sign: (nat, Hash, int) -> string, signedAt: int) returns (cp: Option<Checkpoint>)
      requires Valid()
      modifies this`checkpoints, this`signings
      ensures Valid()
      ensures cp.None? <==> rows == []
      ensures cp.None? ==> checkpoints == old(checkpoints) && signings == old(signings)
      ensures cp.Some? ==>
                && cp.value == Checkpoint(|rows|, Head(rows), signedAt, sign(|rows|, Head(rows), signedAt))
                && checkpoints == old(checkpoints) + [cp.value]
                && signings == old(signings) + [Signing(|rows|, Head(rows), rows)]
    {
      if rows == [] {
        return None;
      }
      var length, head := |rows|, rows[|rows| - 1].hash;
      var made := Checkpoint(length, head, signedAt, sign(length, head, signedAt));
      checkpoints := checkpoints + [made];
      signings := signings + [Signing(length, head, rows)];
      cp := Some(made);
    }

    /** Only reads, and of whatever rows there are by then. `latest` is the checkpoint
        the query returns: any of the greatest length. */
    method VerifyAnchoring(key: bool, latest: Option<Checkpoint>) returns (a: Anchoring)
      ensures a == Anchor(if key then Some(verify) else None, latest, rows)
      ensures Valid() && key && latest.Some? && latest.value in checkpoints && verify(latest.value) ==> a == Signed
    {
      if !key || latest.None? {
        return Unanchored;
      }
      var cp := latest.value;
      if !verify(cp) {
        return Broken;
      }
      assert Valid() && cp in checkpoints ==> Matches(cp, rows);
      if |rows| < cp.length {
        return Broken;
      }
      if cp.length == 0 {
        return Raised;
      }
      a := if rows[cp.length - 1].hash != cp.head then Broken else Signed;
    }
  }

  /** A checkpoint agrees with the rows it was made over. */
  ghost predicate Matches(cp: Checkpoint, rs: seq<Record>) {
    1 <= cp.length <= |rs| && rs[cp.length - 1].hash == cp.head
  }

  /** Appending never breaks an anchor: what was reported signed still is. */
  lemma {:induction false} AppendsKeepSigned(verify: Verifier, cp: Checkpoint, rs: seq<Record>, more: seq<Record>)
    requires Anchor(Some(verify), Some(cp), rs) == Signed
    ensures Anchor(Some(verify), Some(cp), rs + more) == Signed
  {
    assert (rs + more)[cp.length - 1] == rs[cp.length - 1];
  }
}
