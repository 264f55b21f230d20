/** What a fetched window is worth: it is compared with a log that never forgets,
    holding the last write of every transaction reference. */
module VelocityRefinement {
  import opened Values
  import opened Velocity

  datatype Logged = Logged(score: int, amount: int, kind: string)
  type Log = map<string, Logged>

  function LogAfter(log: Log, f: Fetch): Log {
    if f.record.None? then log
    else
      var r := f.record.value;
      log[r.ref := Logged(f.now, r.amount, r.kind)]
  }

  // -------------------------------------------------- counting against the log

  predicate Passes(l: Logged, f: Filter) {
    WithinBounds(l.amount, f) == Val(true) && OfKind(l.kind, f)
  }

  function Selected(log: Log, cutoff: int, f: Filter): set<string> {
    set r | r in log && log[r].score >= cutoff && Passes(log[r], f)
  }

  function InWindow(log: Log, cutoff: int): set<string> {
    set r | r in log && log[r].score >= cutoff
  }

  ghost function SumOver(log: Log, s: set<string>): int
    requires s <= log.Keys
  {
    if s == {} then 0
    else
      var r :| r in s;
      log[r].amount + SumOver(log, s - {r})
  }

  lemma {:induction false} SumOverAdds(log: Log, s: set<string>, r: string)
    requires s <= log.Keys && r in s
    ensures SumOver(log, s) == log[r].amount + SumOver(log, s - {r})
  {
    var q :| q in s && SumOver(log, s) == log[q].amount + SumOver(log, s - {q});
    if q != r {
      SumOverAdds(log, s - {q}, r);
      SumOverAdds(log, s - {r}, q);
      assert s - {q} - {r} == s - {r} - {q};
    }
  }

  // ---------------------------------------------------- the sorted set, listed

  /** In score order, each reference once. */
  ghost predicate Ordered(z: seq<Member>) {
    z == [] || (Ordered(z[1..]) && forall m | m in z[1..] :: z[0].score <= m.score && z[0].ref != m.ref)
  }

  lemma {:induction false} KeepExactly(z: seq<Member>, p: Member -> bool)
    ensures forall m :: m in Keep(z, p) <==> m in z && p(m)
    ensures Ordered(z) ==> Ordered(Keep(z, p))
  {
    if z != [] {
      KeepExactly(z[1..], p);
      assert if p(z[0]) then Keep(z, p)[1..] == Keep(z[1..], p) else Keep(z, p) == Keep(z[1..], p);
    }
  }

  lemma {:induction false} KeepAppend(a: seq<Member>, b: seq<Member>, p: Member -> bool)
    ensures Keep(a + b, p) == Keep(a, p) + Keep(b, p)
  {
    if a == [] {
      assert a + b == b;
    } else {
      KeepAppend(a[1..], b, p);
      assert (a + b)[1..] == a[1..] + b;
    }
  }

  lemma {:induction false} KeepNone(z: seq<Member>, p: Member -> bool)
    requires forall m | m in z :: !p(m)
    ensures Keep(z, p) == []
  {
    if z != [] {
      KeepNone(z[1..], p);
    }
  }

  lemma {:induction false} KeepEverything(z: seq<Member>, p: Member -> bool)
    requires forall m | m in z :: p(m)
    ensures Keep(z, p) == z
  {
    if z != [] {
      KeepEverything(z[1..], p);
    }
  }

  lemma {:induction false} FirstIsLeast(z: seq<Member>, cutoff: int)
    requires Ordered(z) && (z != [] ==> z[0].score >= cutoff)
    ensures forall m | m in z :: m.score >= cutoff
  {
  }

  /** In a set ordered by score, the members at or above a score come last. */
  lemma {:induction false} AtLeastIsSuffix(z: seq<Member>, cutoff: int) returns (k: nat)
    requires Ordered(z)
    ensures k <= |z| && AtLeast(z, cutoff) == z[k..]
    ensures forall i | 0 <= i < |z| :: z[i].score >= cutoff <==> i >= k
  {
    if z == [] || z[0].score >= cutoff {
      k := 0;
      FirstIsLeast(z, cutoff);
      KeepEverything(z, ScoredFrom(cutoff));
    } else {
      var rest := z[1..];
      var later := AtLeastIsSuffix(rest, cutoff);
      k := later + 1;
      assert rest[later..] == z[k..] && AtLeast(z, cutoff) == AtLeast(rest, cutoff);
      forall i | 0 <= i < |z| ensures z[i].score >= cutoff <==> i >= k {
        assert i > 0 ==> z[i] == rest[i - 1];
      }
    }
  }

  /** Reading the newest `n` of the large window and then looking at a smaller one
      is the same as taking the newest `n` of the smaller one. */
  lemma {:induction false} NewestCommute(z: seq<Member>, wide: int, narrow: int, n: nat)
    requires Ordered(z) && wide <= narrow
    ensures AtLeast(LastN(AtLeast(z, wide), n), narrow) == LastN(AtLeast(z, narrow), n)
  {
    var j := AtLeastIsSuffix(z, wide);
    var k := AtLeastIsSuffix(z, narrow);
    SuffixesNest(z, wide, narrow, j, k);
    NewestOfSuffix(z, narrow, j, k, n);
  }

  lemma {:induction false} SuffixesNest(z: seq<Member>, wide: int, narrow: int, j: nat, k: nat)
    requires j <= |z| && k <= |z| && wide <= narrow
    requires forall i | 0 <= i < |z| :: z[i].score >= wide <==> i >= j
    requires forall i | 0 <= i < |z| :: z[i].score >= narrow <==> i >= k
    ensures j <= k
  {
    assert k < |z| ==> z[k].score >= narrow;
  }

  lemma {:induction false} NewestOfSuffix(z: seq<Member>, narrow: int, j: nat, k: nat, n: nat)
    requires j <= k <= |z| && forall i | 0 <= i < |z| :: z[i].score >= narrow <==> i >= k
    ensures AtLeast(LastN(z[j..], n), narrow) == LastN(z[k..], n)
  {
    var i := if |z| - j > n then |z| - n else j;
    assert LastN(z[j..], n) == z[i..];
    SliceAtLeast(z, i, k, narrow);
  }

  lemma {:induction false} SliceAtLeast(z: seq<Member>, i: nat, k: nat, cutoff: int)
    requires i <= |z| && k <= |z|
    requires forall j | 0 <= j < |z| :: z[j].score >= cutoff <==> j >= k
    ensures AtLeast(z[i..], cutoff) == z[if i <= k then k else i..]
  {
    var p := ScoredFrom(cutoff);
    if i <= k {
      assert z[i..] == z[i..k] + z[k..];
      KeepAppend(z[i..k], z[k..], p);
      KeepNone(z[i..k], p);
      KeepEverything(z[k..], p);
    } else {
      KeepEverything(z[i..], p);
    }
  }

  lemma {:induction false} InsertExactly(z: seq<Member>, m: Member)
    requires forall x | x in z :: x.ref != m.ref
    ensures forall x :: x in Insert(z, m) <==> x == m || x in z
    ensures |Insert(z, m)| == |z| + 1
    ensures Ordered(z) ==> Ordered(Insert(z, m))
  {
    if z == [] || Before(m, z[0]) {
      assert Insert(z, m)[1..] == z;
    } else {
      InsertExactly(z[1..], m);
      assert Insert(z, m)[1..] == Insert(z[1..], m);
    }
  }

  lemma {:induction false} AddExactly(z: seq<Member>, m: Member)
    ensures forall x :: x in Add(z, m) <==> x == m || (x in z && x.ref != m.ref)
    ensures Ordered(z) ==> Ordered(Add(z, m))
  {
    KeepExactly(z, OtherThan(m.ref));
    InsertExactly(Without(z, m.ref), m);
  }

  // ------------------------------------------------- the keys against the log

  /** Everything still in the keys is the last write the log holds for it. */
  ghost predicate Represents(k: Keys, log: Log) {
    && Ordered(k.members)
    && Mirrors(k.members, log)
    && forall m | m in k.members ::
         m.ref in k.amounts && k.amounts[m.ref] == Encode(log[m.ref].amount, log[m.ref].kind)
  }

  ghost predicate Mirrors(z: seq<Member>, log: Log) {
    forall m | m in z :: m.ref in log && log[m.ref].score == m.score
  }

  function Refs(z: seq<Member>): set<string> {
    if z == [] then {} else {z[0].ref} + Refs(z[1..])
  }

  lemma {:induction false} RefsExactly(z: seq<Member>, r: string)
    ensures r in Refs(z) <==> exists m | m in z :: m.ref == r
  {
    if z != [] {
      RefsExactly(z[1..], r);
    }
  }

  predicate Held(k: Keys, r: string) {
    r in Refs(k.members)
  }

  /** No write inside the window has been trimmed or expired away. */
  ghost predicate NothingLost(k: Keys, log: Log, cutoff: int) {
    forall r | r in log && log[r].score >= cutoff :: Held(k, r)
  }

  lemma {:induction false} AfterRepresents(k: Keys, log: Log, f: Fetch)
    requires Represents(k, log)
    ensures Represents(After(k, f), LogAfter(log, f))
  {
    var t := Trimmed(Expired(k, f.server), f.now);
    KeepExactly(Expired(k, f.server).members, Outlives(f.now - LARGEST_WINDOW));
    assert Represents(t, log);
    if f.record.Some? {
      AddExactly(t.members, Member(f.record.value.ref, f.now));
    }
  }

  /** Each listed member decodes to the last write the log holds for it. */
  ghost predicate Decodes(es: seq<Entry>, z: seq<Member>, log: Log) {
    && |es| == |z|
    && (forall m | m in z :: m.ref in log)
    && forall i | 0 <= i < |z| ::
         es[i] == Entry(z[i].ref, z[i].score, log[z[i].ref].amount, log[z[i].ref].kind)
  }

  /** The references a listing contributes to a count. */
  function Chosen(z: seq<Member>, log: Log, cutoff: int, f: Filter): set<string>
    requires forall m | m in z :: m.ref in log
  {
    if z == [] then {}
    else
      (if z[0].score >= cutoff && Passes(log[z[0].ref], f) then {z[0].ref} else {})
      + Chosen(z[1..], log, cutoff, f)
  }

  lemma {:induction false} ChosenExactly(z: seq<Member>, log: Log, cutoff: int, f: Filter, r: string)
    requires forall m | m in z :: m.ref in log
    ensures r in Chosen(z, log, cutoff, f)
       <==> exists m | m in z :: m.ref == r && m.score >= cutoff && Passes(log[r], f)
  {
    if z != [] {
      ChosenExactly(z[1..], log, cutoff, f, r);
    }
  }

  lemma {:induction false} MatchingCountsChosen(es: seq<Entry>, z: seq<Member>, log: Log, cutoff: int, f: Filter)
    requires Ordered(z) && Decodes(es, z, log) && WellTyped(f)
    ensures Chosen(z, log, cutoff, f) <= log.Keys
    ensures var chosen := Chosen(z, log, cutoff, f);
            var found := Matching(es, cutoff, f);
            found.Val? && |found.v| == |chosen| && Sum(found.v) == SumOver(log, chosen)
  {
    if z != [] {
      MatchingCountsChosen(es[1..], z[1..], log, cutoff, f);
      ChosenStep(z, log, cutoff, f);
      MatchingStep(es, cutoff, f);
    }
  }

  lemma {:induction false} MatchingStep(es: seq<Entry>, cutoff: int, f: Filter)
    requires es != [] && WellTyped(f) && Matching(es[1..], cutoff, f).Val?
    ensures Matching(es, cutoff, f).Val?
    ensures var e, rest, all := es[0], Matching(es[1..], cutoff, f).v, Matching(es, cutoff, f).v;
            if e.score >= cutoff && Passes(Logged(e.score, e.amount, e.kind), f)
            then |all| == 1 + |rest| && Sum(all) == e.amount + Sum(rest)
            else all == rest
  {
  }

  lemma {:induction false} ChosenStep(z: seq<Member>, log: Log, cutoff: int, f: Filter)
    requires z != [] && Ordered(z) && forall m | m in z :: m.ref in log
    requires Chosen(z[1..], log, cutoff, f) <= log.Keys
    ensures Chosen(z, log, cutoff, f) <= log.Keys
    ensures var m, fewer, chosen := z[0], Chosen(z[1..], log, cutoff, f), Chosen(z, log, cutoff, f);
            if m.score >= cutoff && Passes(log[m.ref], f)
            then |chosen| == 1 + |fewer| && SumOver(log, chosen) == log[m.ref].amount + SumOver(log, fewer)
            else chosen == fewer
  {
    var m, fewer, chosen := z[0], Chosen(z[1..], log, cutoff, f), Chosen(z, log, cutoff, f);
    ChosenExactly(z[1..], log, cutoff, f, m.ref);
    if m.score >= cutoff && Passes(log[m.ref], f) {
      assert chosen - {m.ref} == fewer;
      SumOverAdds(log, chosen, m.ref);
    } else {
      assert chosen == fewer;
    }
  }

  /** Entries older than the cutoff may as well not have been fetched. */
  lemma {:induction false} MatchingIgnoresOlder(z: seq<Member>, amounts: map<string, string>, cutoff: int, f: Filter)
    ensures Matching(EntriesOf(z, amounts), cutoff, f)
         == Matching(EntriesOf(AtLeast(z, cutoff), amounts), cutoff, f)
  {
    if z != [] {
      MatchingIgnoresOlder(z[1..], amounts, cutoff, f);
      assert EntriesOf(z, amounts)[1..] == EntriesOf(z[1..], amounts);
      var kept := AtLeast(z, cutoff);
      if z[0].score >= cutoff {
        assert kept[1..] == AtLeast(z[1..], cutoff);
        assert EntriesOf(kept, amounts)[1..] == EntriesOf(kept[1..], amounts);
      } else {
        assert kept == AtLeast(z[1..], cutoff);
      }
    }
  }

  /** What a window of `seconds` sees of the keys: the newest 5,000 members in it. */
  function Seen(k: Keys, now: int, seconds: int): seq<Member> {
    LastN(AtLeast(k.members, now - seconds), MAX_MEMBERS_FETCHED)
  }

  lemma {:induction false} SeenIsOrdered(k: Keys, now: int, seconds: int)
    requires Ordered(k.members)
    ensures Ordered(Seen(k, now, seconds))
    ensures forall m | m in Seen(k, now, seconds) :: m in k.members && m.score >= now - seconds
  {
    KeepExactly(k.members, ScoredFrom(now - seconds));
    var inside := AtLeast(k.members, now - seconds);
    OrderedSuffix(inside, if |inside| > MAX_MEMBERS_FETCHED then |inside| - MAX_MEMBERS_FETCHED else 0);
    forall m | m in Seen(k, now, seconds) ensures m in inside {}
  }

  lemma {:induction false} MembersDecode(z: seq<Member>, k: Keys, log: Log)
    requires Represents(k, log) && forall m | m in z :: m in k.members
    ensures Decodes(EntriesOf(z, k.amounts), z, log)
  {
    forall i | 0 <= i < |z|
      ensures EntryOf(z[i], k.amounts) == Entry(z[i].ref, z[i].score, log[z[i].ref].amount, log[z[i].ref].kind)
    {
      assert z[i] in k.members;
      EncodingRoundTrips(log[z[i].ref].amount, log[z[i].ref].kind);
    }
  }

  lemma {:induction false} ViewMatchesSeen(k: Keys, now: int, seconds: int, f: Filter)
    requires Ordered(k.members) && seconds <= LARGEST_WINDOW
    ensures Matching(View(k, now).entries, now - seconds, f)
         == Matching(EntriesOf(Seen(k, now, seconds), k.amounts), now - seconds, f)
  {
    var fetched := LastN(AtLeast(k.members, now - LARGEST_WINDOW), MAX_MEMBERS_FETCHED);
    NewestCommute(k.members, now - LARGEST_WINDOW, now - seconds, MAX_MEMBERS_FETCHED);
    MatchingIgnoresOlder(fetched, k.amounts, now - seconds, f);
  }

  lemma {:induction false} ViewSees(k: Keys, log: Log, now: int, seconds: int, f: Filter)
    requires Represents(k, log) && seconds <= LARGEST_WINDOW && WellTyped(f)
    ensures forall m | m in Seen(k, now, seconds) :: m in k.members && m.ref in log
    ensures var chosen := Chosen(Seen(k, now, seconds), log, now - seconds, f);
            && chosen <= log.Keys
            && Count(View(k, now), seconds, f) == Val(|chosen|)
            && Total(View(k, now), seconds, f) == Val(SumOver(log, chosen))
  {
    var seen := Seen(k, now, seconds);
    SeenIsOrdered(k, now, seconds);
    MembersDecode(seen, k, log);
    ViewMatchesSeen(k, now, seconds, f);
    ListedCount(View(k, now), EntriesOf(seen, k.amounts), seen, log, seconds, f);
  }

  lemma {:induction false} ListedCount(w: Window, es: seq<Entry>, z: seq<Member>, log: Log, seconds: int, f: Filter)
    requires Ordered(z) && Decodes(es, z, log) && WellTyped(f)
    requires Matching(w.entries, w.now - seconds, f) == Matching(es, w.now - seconds, f)
    ensures Chosen(z, log, w.now - seconds, f) <= log.Keys
    ensures Count(w, seconds, f) == Val(|Chosen(z, log, w.now - seconds, f)|)
    ensures Total(w, seconds, f) == Val(SumOver(log, Chosen(z, log, w.now - seconds, f)))
  {
    MatchingCountsChosen(es, z, log, w.now - seconds, f);
  }

  lemma {:induction false} OrderedSuffix(z: seq<Member>, i: nat)
    requires Ordered(z) && i <= |z|
    ensures Ordered(z[i..])
  {
    if i > 0 {
      OrderedSuffix(z[1..], i - 1);
      assert z[1..][i - 1..] == z[i..];
    }
  }
}
