/** Whole runs of fetches against one customer's keys: when a window is exact, and
    what a threshold on it lets through. */
module VelocityRuns {
  import opened Values
  import opened Velocity
  import opened VelocityRefinement

  // ------------------------------------------- exactness of one fetched window

  lemma {:induction false} SmallerSubset<T>(a: set<T>, b: set<T>)
    requires a <= b
    ensures |a| <= |b|
  {
    assert |b| == |a| + |b - a|;
  }

  /** The references the log selects and the keys still hold. */
  function Kept(k: Keys, log: Log, cutoff: int, f: Filter): set<string> {
    Selected(log, cutoff, f) * Refs(k.members)
  }

  lemma {:induction false} ChosenIsKept(k: Keys, log: Log, cutoff: int, f: Filter)
    requires Mirrors(k.members, log)
    ensures forall m | m in AtLeast(k.members, cutoff) :: m.ref in log
    ensures Chosen(AtLeast(k.members, cutoff), log, cutoff, f) == Kept(k, log, cutoff, f)
  {
    KeepExactly(k.members, ScoredFrom(cutoff));
    var z := AtLeast(k.members, cutoff);
    forall r | r in Chosen(z, log, cutoff, f) ensures r in Kept(k, log, cutoff, f) {
      ChosenExactly(z, log, cutoff, f, r);
      RefsExactly(k.members, r);
    }
    forall r | r in Kept(k, log, cutoff, f) ensures r in Chosen(z, log, cutoff, f) {
      ChosenExactly(z, log, cutoff, f, r);
      RefsExactly(k.members, r);
      var m :| m in k.members && m.ref == r;
      assert m in z;
    }
  }

  lemma {:induction false} ViewCountsKept(k: Keys, log: Log, now: int, seconds: int, f: Filter)
    requires Represents(k, log) && seconds <= LARGEST_WINDOW && WellTyped(f)
    requires |AtLeast(k.members, now - seconds)| <= MAX_MEMBERS_FETCHED
    ensures Count(View(k, now), seconds, f) == Val(|Kept(k, log, now - seconds, f)|)
    ensures Total(View(k, now), seconds, f) == Val(SumOver(log, Kept(k, log, now - seconds, f)))
  {
    var z, kept := AtLeast(k.members, now - seconds), Kept(k, log, now - seconds, f);
    SeenIsWhole(k, now, seconds);
    ChosenIsKept(k, log, now - seconds, f);
    ViewSeesListed(k, log, now, seconds, f, z, kept);
  }

  lemma {:induction false} ViewSeesListed(k: Keys, log: Log, now: int, seconds: int, f: Filter, z: seq<Member>,
                                          kept: set<string>)
    requires Represents(k, log) && seconds <= LARGEST_WINDOW && WellTyped(f) && z == Seen(k, now, seconds)
    requires (forall m | m in z :: m.ref in log) && kept == Chosen(z, log, now - seconds, f) && kept <= log.Keys
    ensures Count(View(k, now), seconds, f) == Val(|kept|)
    ensures Total(View(k, now), seconds, f) == Val(SumOver(log, kept))
  {
    ViewSees(k, log, now, seconds, f);
  }

  lemma {:induction false} SeenIsWhole(k: Keys, now: int, seconds: int)
    requires |AtLeast(k.members, now - seconds)| <= MAX_MEMBERS_FETCHED
    ensures Seen(k, now, seconds) == AtLeast(k.members, now - seconds)
  {
  }

  /** A count and a sum agree with the log's. */
  ghost predicate Exact(k: Keys, now: int, log: Log, seconds: int, f: Filter) {
    var selected := Selected(log, now - seconds, f);
    && Count(View(k, now), seconds, f) == Val(|selected|)
    && Total(View(k, now), seconds, f) == Val(SumOver(log, selected))
  }

  lemma {:induction false} ExactIfNothingLost(k: Keys, log: Log, now: int, seconds: int, f: Filter)
    requires Represents(k, log) && seconds <= LARGEST_WINDOW && WellTyped(f)
    requires |AtLeast(k.members, now - seconds)| <= MAX_MEMBERS_FETCHED
    requires NothingLost(k, log, now - seconds)
    ensures Exact(k, now, log, seconds, f)
  {
    ViewCountsKept(k, log, now, seconds, f);
    assert Kept(k, log, now - seconds, f) == Selected(log, now - seconds, f);
  }

  lemma {:induction false} InexactIfLost(k: Keys, log: Log, now: int, seconds: int, lost: string)
    requires Represents(k, log) && seconds <= LARGEST_WINDOW
    requires |AtLeast(k.members, now - seconds)| <= MAX_MEMBERS_FETCHED
    requires lost in log && log[lost].score >= now - seconds && !Held(k, lost)
    ensures !Exact(k, now, log, seconds, NO_FILTER)
  {
    ViewCountsKept(k, log, now, seconds, NO_FILTER);
    var selected := Selected(log, now - seconds, NO_FILTER);
    assert lost in selected;
    SmallerSubset(Kept(k, log, now - seconds, NO_FILTER), selected - {lost});
  }

  /** With at most 5,000 members inside it, a window answers every well-typed count
      and sum as the complete log would, if and only if no write inside the window
      has been lost. */
  lemma {:induction false} WindowExactIff(k: Keys, log: Log, now: int, seconds: int)
    requires Represents(k, log) && seconds <= LARGEST_WINDOW
    requires |AtLeast(k.members, now - seconds)| <= MAX_MEMBERS_FETCHED
    ensures NothingLost(k, log, now - seconds)
       <==> forall f | WellTyped(f) :: Exact(k, now, log, seconds, f)
  {
    if NothingLost(k, log, now - seconds) {
      forall f | WellTyped(f) ensures Exact(k, now, log, seconds, f) {
        ExactIfNothingLost(k, log, now, seconds, f);
      }
    } else {
      var lost :| lost in log && log[lost].score >= now - seconds && !Held(k, lost);
      InexactIfLost(k, log, now, seconds, lost);
      assert WellTyped(NO_FILTER);
    }
  }

  lemma {:induction false} UnfilteredTakesAll(es: seq<Entry>, cutoff: int)
    requires forall e | e in es :: e.score >= cutoff
    ensures Matching(es, cutoff, NO_FILTER).Val? && |Matching(es, cutoff, NO_FILTER).v| == |es|
  {
    if es != [] {
      UnfilteredTakesAll(es[1..], cutoff);
    }
  }

  lemma {:induction false} MembersInWindow(k: Keys, log: Log, cutoff: int)
    requires Represents(k, log) && NothingLost(k, log, cutoff)
    ensures |AtLeast(k.members, cutoff)| == |InWindow(log, cutoff)|
  {
    var z := AtLeast(k.members, cutoff);
    KeepExactly(k.members, ScoredFrom(cutoff));
    MembersDecode(z, k, log);
    ListingCounted(z, EntriesOf(z, k.amounts), log, cutoff);
    ChosenIsKept(k, log, cutoff, NO_FILTER);
    assert Kept(k, log, cutoff, NO_FILTER) == InWindow(log, cutoff);
  }

  lemma {:induction false} ListingCounted(z: seq<Member>, es: seq<Entry>, log: Log, cutoff: int)
    requires Ordered(z) && Decodes(es, z, log) && forall m | m in z :: m.score >= cutoff
    ensures |z| == |Chosen(z, log, cutoff, NO_FILTER)|
  {
    forall e | e in es ensures e.score >= cutoff {
      var i :| 0 <= i < |es| && es[i] == e;
      assert z[i] in z;
    }
    UnfilteredTakesAll(es, cutoff);
    MatchingCountsChosen(es, z, log, cutoff, NO_FILTER);
  }

  function Min(a: int, b: int): int {
    if a < b then a else b
  }

  /** However many members there are, an unfiltered count is the true number of
      references in the window, or 5,000 if that is fewer. */
  lemma {:induction false} UnfilteredCount(k: Keys, log: Log, now: int, seconds: int)
    requires Represents(k, log) && seconds <= LARGEST_WINDOW && NothingLost(k, log, now - seconds)
    ensures Count(View(k, now), seconds, NO_FILTER)
         == Val(Min(|InWindow(log, now - seconds)|, MAX_MEMBERS_FETCHED))
  {
    MembersInWindow(k, log, now - seconds);
    MembersCounted(k, now, seconds);
  }

  lemma {:induction false} MembersCounted(k: Keys, now: int, seconds: int)
    requires Ordered(k.members) && seconds <= LARGEST_WINDOW
    ensures Count(View(k, now), seconds, NO_FILTER)
         == Val(Min(|AtLeast(k.members, now - seconds)|, MAX_MEMBERS_FETCHED))
  {
    assert View(k, now).now == now;
    ViewMatchesSeen(k, now, seconds, NO_FILTER);
    SeenCounted(k, now, seconds);
    CountOf(View(k, now), seconds, NO_FILTER,
            Matching(EntriesOf(Seen(k, now, seconds), k.amounts), now - seconds, NO_FILTER));
  }

  lemma {:induction false} SeenCounted(k: Keys, now: int, seconds: int)
    requires Ordered(k.members)
    ensures var es := EntriesOf(Seen(k, now, seconds), k.amounts);
            && |es| == Min(|AtLeast(k.members, now - seconds)|, MAX_MEMBERS_FETCHED)
            && Matching(es, now - seconds, NO_FILTER).Val?
            && |Matching(es, now - seconds, NO_FILTER).v| == |es|
  {
    var seen := Seen(k, now, seconds);
    SeenIsOrdered(k, now, seconds);
    var es := EntriesOf(seen, k.amounts);
    forall e | e in es ensures e.score >= now - seconds {
      var i :| 0 <= i < |es| && es[i] == e;
      assert seen[i] in seen;
    }
    UnfilteredTakesAll(es, now - seconds);
  }

  lemma {:induction false} CountOf(w: Window, seconds: int, f: Filter, found: Outcome<seq<int>>)
    requires Matching(w.entries, w.now - seconds, f) == found && found.Val?
    ensures Count(w, seconds, f) == Val(|found.v|)
  {
  }

  // --------------------------------------------------------------------- runs

  function KeysAfter(run: seq<Fetch>): Keys {
    if run == [] then EMPTY else After(KeysAfter(run[..|run| - 1]), run[|run| - 1])
  }

  function LogOf(run: seq<Fetch>): Log {
    if run == [] then map[] else LogAfter(LogOf(run[..|run| - 1]), run[|run| - 1])
  }

  lemma {:induction false} RunRepresents(run: seq<Fetch>)
    ensures Represents(KeysAfter(run), LogOf(run))
  {
    if run != [] {
      var prefix := run[..|run| - 1];
      RunRepresents(prefix);
      AfterRepresents(KeysAfter(prefix), LogOf(prefix), run[|run| - 1]);
    }
  }

  predicate Expires(k: Keys, f: Fetch) {
    k.deadline.Some? && f.server >= k.deadline.value
  }

  lemma {:induction false} TrimLosesNothing(k: Keys, log: Log, f: Fetch, bound: int)
    requires Mirrors(k.members, log) && NothingLost(k, log, bound)
    requires f.now - LARGEST_WINDOW < bound
    requires Expires(k, f) ==> forall r | r in log :: log[r].score < bound
    ensures NothingLost(Trimmed(Expired(k, f.server), f.now), log, bound)
  {
    var e := Expired(k, f.server);
    var t := Trimmed(e, f.now);
    KeepExactly(e.members, Outlives(f.now - LARGEST_WINDOW));
    forall r | r in log && log[r].score >= bound ensures Held(t, r) {
      RefsExactly(k.members, r);
      RefsExactly(t.members, r);
      var m :| m in k.members && m.ref == r;
      assert m in t.members;
    }
  }

  lemma {:induction false} WriteLosesNothing(k: Keys, log: Log, f: Fetch, bound: int)
    requires NothingLost(k, log, bound)
    ensures NothingLost(Written(k, f), LogAfter(log, f), bound)
  {
    if f.record.Some? {
      var added, log' := Member(f.record.value.ref, f.now), LogAfter(log, f);
      AddExactly(k.members, added);
      forall r | r in log' && log'[r].score >= bound ensures Held(Written(k, f), r) {
        RefsExactly(Written(k, f).members, r);
        if r == added.ref {
          assert added in Written(k, f).members;
        } else {
          RefsExactly(k.members, r);
          var m :| m in k.members && m.ref == r;
          assert m in Written(k, f).members;
        }
      }
    }
  }

  lemma {:induction false} FetchLosesNothing(k: Keys, log: Log, f: Fetch, bound: int)
    requires Represents(k, log) && NothingLost(k, log, bound)
    requires f.now - LARGEST_WINDOW < bound
    requires Expires(k, f) ==> forall r | r in log :: log[r].score < bound
    ensures NothingLost(After(k, f), LogAfter(log, f), bound)
  {
    TrimLosesNothing(k, log, f, bound);
    WriteLosesNothing(Trimmed(Expired(k, f.server), f.now), log, f, bound);
  }

  /** No fetch of the run finds the keys expired. */
  ghost predicate NeverExpires(run: seq<Fetch>) {
    run == [] || (NeverExpires(run[..|run| - 1]) && !Expires(KeysAfter(run[..|run| - 1]), run[|run| - 1]))
  }

  /** The window a run's last fetch returns. */
  function LastView(run: seq<Fetch>): Window
    requires run != []
  {
    View(KeysAfter(run), run[|run| - 1].now)
  }

  ghost predicate ExactlyTheLog(run: seq<Fetch>, seconds: int)
    requires run != []
  {
    forall f | WellTyped(f) :: Exact(KeysAfter(run), run[|run| - 1].now, LogOf(run), seconds, f)
  }

  lemma {:induction false} KeysExact(k: Keys, log: Log, now: int, seconds: int)
    requires Represents(k, log) && NothingLost(k, log, now - seconds) && seconds <= LARGEST_WINDOW
    requires |InWindow(log, now - seconds)| <= MAX_MEMBERS_FETCHED
    ensures forall f | WellTyped(f) :: Exact(k, now, log, seconds, f)
  {
    MembersInWindow(k, log, now - seconds);
    WindowExactIff(k, log, now, seconds);
  }

  lemma {:induction false} ExactWhenNothingLost(run: seq<Fetch>, seconds: int)
    requires run != [] && seconds <= LARGEST_WINDOW
    requires NothingLost(KeysAfter(run), LogOf(run), run[|run| - 1].now - seconds)
    requires |InWindow(LogOf(run), run[|run| - 1].now - seconds)| <= MAX_MEMBERS_FETCHED
    ensures ExactlyTheLog(run, seconds)
  {
    RunRepresents(run);
    KeysExact(KeysAfter(run), LogOf(run), run[|run| - 1].now, seconds);
  }

  // ---------------------------------------------------- exactness, by the clocks

  /** The last fetch of the run that wrote anything. */
  function LastWriter(run: seq<Fetch>): Option<nat> {
    if run == [] then None
    else if run[|run| - 1].record.Some? then Some(|run| - 1)
    else LastWriter(run[..|run| - 1])
  }

  /** The server reads its clock at `j` before the keys that fetch `i` wrote lapse. */
  predicate InLifetime(run: seq<Fetch>, i: nat, j: nat) {
    i < |run| && j < |run| && run[j].server < run[i].server + KEY_TTL
  }

  /** Every fetch comes within the keys' lifetime after the write before it. */
  ghost predicate WithinLifetime(run: seq<Fetch>) {
    run == [] ||
    var earlier := run[..|run| - 1];
    && WithinLifetime(earlier)
    && (LastWriter(earlier).Some? ==> InLifetime(run, LastWriter(earlier).value, |run| - 1))
  }

  lemma {:induction false} DeadlineSet(k: Keys, f: Fetch)
    requires !Expires(k, f)
    ensures After(k, f).deadline == if f.record.Some? then Some(f.server + KEY_TTL) else k.deadline
  {
  }

  lemma {:induction false} DeadlineAfter(run: seq<Fetch>)
    requires NeverExpires(run)
    ensures LastWriter(run).None? ==> KeysAfter(run).deadline == None
    ensures LastWriter(run).Some? ==>
              && LastWriter(run).value < |run|
              && KeysAfter(run).deadline == Some(run[LastWriter(run).value].server + KEY_TTL)
  {
    if run != [] {
      var earlier := run[..|run| - 1];
      DeadlineAfter(earlier);
      DeadlineSet(KeysAfter(earlier), run[|run| - 1]);
    }
  }

  /** Whether keys ever expire is a matter of the server's clock readings alone. */
  lemma {:induction false} NeverExpiresIff(run: seq<Fetch>)
    ensures NeverExpires(run) <==> WithinLifetime(run)
  {
    if run != [] {
      var earlier := run[..|run| - 1];
      NeverExpiresIff(earlier);
      if NeverExpires(earlier) {
        DeadlineAfter(earlier);
      }
    }
  }

  /** Fetch `i` is the last to write its reference. */
  ghost predicate LastWrite(run: seq<Fetch>, i: int) {
    && 0 <= i < |run| && run[i].record.Some?
    && forall j | i < j < |run| && run[j].record.Some? :: run[j].record.value.ref != run[i].record.value.ref
  }

  /** Fetch `j` comes later and, by its clock, trims what fetch `i` wrote. */
  predicate TrimmedBy(run: seq<Fetch>, i: int, j: int) {
    0 <= i < j < |run| && 0 <= run[i].now <= run[j].now - LARGEST_WINDOW
  }

  /** No later fetch trims what fetch `i` wrote. */
  ghost predicate Untrimmed(run: seq<Fetch>, i: int) {
    forall j :: !TrimmedBy(run, i, j)
  }

  lemma {:induction false} UntrimmedSplits(run: seq<Fetch>, i: int)
    requires 0 <= i < |run| - 1
    ensures Untrimmed(run, i) <==> Untrimmed(run[..|run| - 1], i) && !TrimmedBy(run, i, |run| - 1)
  {
    var earlier := run[..|run| - 1];
    forall j | j != |run| - 1 ensures TrimmedBy(run, i, j) <==> TrimmedBy(earlier, i, j) {}
  }

  lemma {:induction false} LastWriteBefore(run: seq<Fetch>, i: int)
    requires LastWrite(run, i) && i < |run| - 1
    ensures LastWrite(run[..|run| - 1], i)
  {
    var earlier := run[..|run| - 1];
    assert forall j | 0 <= j < |earlier| :: earlier[j] == run[j];
  }

  lemma {:induction false} LogHasLastWrite(run: seq<Fetch>, r: string) returns (i: int)
    requires r in LogOf(run)
    ensures LastWrite(run, i) && run[i].record.value.ref == r && LogOf(run)[r].score == run[i].now
  {
    var earlier, last := run[..|run| - 1], run[|run| - 1];
    if last.record.Some? && last.record.value.ref == r {
      i := |run| - 1;
    } else {
      i := LogHasLastWrite(earlier, r);
      assert forall j | 0 <= j < |earlier| :: earlier[j] == run[j];
    }
  }

  lemma {:induction false} LastWriteIsLogged(run: seq<Fetch>, i: int)
    requires LastWrite(run, i)
    ensures run[i].record.value.ref in LogOf(run) && LogOf(run)[run[i].record.value.ref].score == run[i].now
    decreases |run|
  {
    if i < |run| - 1 {
      LastWriteBefore(run, i);
      LastWriteIsLogged(run[..|run| - 1], i);
    }
  }

  lemma {:induction false} TrimKeepsIff(z: seq<Member>, log: Log, cutoff: int, r: string)
    requires Mirrors(z, log) && r in log
    ensures r in Refs(Trim(z, cutoff)) <==> r in Refs(z) && !(0 <= log[r].score <= cutoff)
  {
    KeepExactly(z, Outlives(cutoff));
    RefsExactly(z, r);
    RefsExactly(Trim(z, cutoff), r);
  }

  lemma {:induction false} AddKeepsOthers(z: seq<Member>, m: Member, r: string)
    requires Ordered(z) && m.ref != r
    ensures r in Refs(Add(z, m)) <==> r in Refs(z)
  {
    AddExactly(z, m);
    RefsExactly(z, r);
    RefsExactly(Add(z, m), r);
  }

  lemma {:induction false} MembersAfter(k: Keys, f: Fetch)
    requires !Expires(k, f)
    ensures var t := Trim(k.members, f.now - LARGEST_WINDOW);
            After(k, f).members == if f.record.Some? then Add(t, Member(f.record.value.ref, f.now)) else t
  {
  }

  /** One fetch keeps a member it does not rewrite unless its clock trims it. */
  lemma {:induction false} FetchKeepsIff(k: Keys, log: Log, f: Fetch, r: string)
    requires Represents(k, log) && !Expires(k, f) && r in log
    requires f.record.Some? ==> f.record.value.ref != r
    ensures Held(After(k, f), r) <==> Held(k, r) && !(0 <= log[r].score <= f.now - LARGEST_WINDOW)
  {
    MembersAfter(k, f);
    TrimKeepsIff(k.members, log, f.now - LARGEST_WINDOW, r);
    TrimOrdered(k.members, f.now - LARGEST_WINDOW);
    if f.record.Some? {
      AddKeepsOthers(Trim(k.members, f.now - LARGEST_WINDOW), Member(f.record.value.ref, f.now), r);
    }
  }

  lemma {:induction false} TrimOrdered(z: seq<Member>, cutoff: int)
    requires Ordered(z)
    ensures Ordered(Trim(z, cutoff))
  {
    KeepExactly(z, Outlives(cutoff));
  }

  lemma {:induction false} FetchHoldsOwn(k: Keys, log: Log, f: Fetch)
    requires Represents(k, log) && f.record.Some?
    ensures Held(After(k, f), f.record.value.ref)
  {
    var t := Trimmed(Expired(k, f.server), f.now);
    var added := Member(f.record.value.ref, f.now);
    KeepExactly(Expired(k, f.server).members, Outlives(f.now - LARGEST_WINDOW));
    AddExactly(t.members, added);
    RefsExactly(After(k, f).members, added.ref);
    assert added in After(k, f).members;
  }

  /** A last write is still held exactly when no later fetch's clock trims it. */
  lemma {:induction false} HeldIff(run: seq<Fetch>, i: int)
    requires NeverExpires(run) && LastWrite(run, i)
    ensures Held(KeysAfter(run), run[i].record.value.ref) <==> Untrimmed(run, i)
    decreases |run|
  {
    var earlier, last := run[..|run| - 1], run[|run| - 1];
    RunRepresents(earlier);
    if i == |run| - 1 {
      FetchHoldsOwn(KeysAfter(earlier), LogOf(earlier), last);
    } else {
      LastWriteBefore(run, i);
      HeldIff(earlier, i);
      LastWriteIsLogged(earlier, i);
      UntrimmedSplits(run, i);
      FetchKeepsIff(KeysAfter(earlier), LogOf(earlier), last, run[i].record.value.ref);
    }
  }

  lemma {:induction false} NothingLostIff(run: seq<Fetch>, cutoff: int)
    requires NeverExpires(run)
    ensures NothingLost(KeysAfter(run), LogOf(run), cutoff)
       <==> forall i | LastWrite(run, i) && run[i].now >= cutoff :: Untrimmed(run, i)
  {
    forall i | LastWrite(run, i)
      ensures run[i].record.value.ref in LogOf(run) && LogOf(run)[run[i].record.value.ref].score == run[i].now
      ensures Held(KeysAfter(run), run[i].record.value.ref) <==> Untrimmed(run, i)
    {
      LastWriteIsLogged(run, i);
      HeldIff(run, i);
    }
    forall r | r in LogOf(run)
      ensures exists i :: LastWrite(run, i) && run[i].record.value.ref == r && LogOf(run)[r].score == run[i].now
    {
      var i := LogHasLastWrite(run, r);
    }
  }

  lemma {:induction false} MembersWithinLog(k: Keys, log: Log, cutoff: int)
    requires Represents(k, log)
    ensures |AtLeast(k.members, cutoff)| <= |InWindow(log, cutoff)|
  {
    var z := AtLeast(k.members, cutoff);
    KeepExactly(k.members, ScoredFrom(cutoff));
    MembersDecode(z, k, log);
    ListingCounted(z, EntriesOf(z, k.amounts), log, cutoff);
    ChosenIsKept(k, log, cutoff, NO_FILTER);
    SmallerSubset(Kept(k, log, cutoff, NO_FILTER), InWindow(log, cutoff));
  }

  /** In every run whose fetches come within the keys' lifetime, and with at most
      5,000 references inside it, the window answers every well-typed count and sum
      as the complete log would if and only if no later clock reading trims a last
      write that lies inside the window. */
  lemma {:induction false} ExactIffUntrimmed(run: seq<Fetch>, seconds: int)
    requires run != [] && seconds <= LARGEST_WINDOW && WithinLifetime(run)
    requires |InWindow(LogOf(run), run[|run| - 1].now - seconds)| <= MAX_MEMBERS_FETCHED
    ensures ExactlyTheLog(run, seconds)
       <==> forall i | LastWrite(run, i) && run[i].now >= run[|run| - 1].now - seconds :: Untrimmed(run, i)
  {
    var now := run[|run| - 1].now;
    NeverExpiresIff(run);
    RunRepresents(run);
    MembersWithinLog(KeysAfter(run), LogOf(run), now - seconds);
    WindowExactIff(KeysAfter(run), LogOf(run), now, seconds);
    NothingLostIff(run, now - seconds);
  }

  /** So it is exact whenever no clock reading was ahead of the last one by thirty
      days less the window or more. */
  lemma {:induction false} ClocksExact(run: seq<Fetch>, seconds: int)
    requires run != [] && seconds <= LARGEST_WINDOW && WithinLifetime(run)
    requires forall f | f in run :: f.now - run[|run| - 1].now < LARGEST_WINDOW - seconds
    requires |InWindow(LogOf(run), run[|run| - 1].now - seconds)| <= MAX_MEMBERS_FETCHED
    ensures ExactlyTheLog(run, seconds)
  {
    forall i | LastWrite(run, i) && run[i].now >= run[|run| - 1].now - seconds ensures Untrimmed(run, i) {
      forall j | i < j < |run| ensures !TrimmedBy(run, i, j) {
        assert run[j] in run;
      }
    }
    ExactIffUntrimmed(run, seconds);
  }

  // ------------------------------------------- expiry is harmless in good time

  /** The server's clock never goes back, and no caller's clock strays from it by
      more than `ahead` forwards or `behind` backwards. */
  ghost predicate Synchronised(run: seq<Fetch>, ahead: int, behind: int) {
    && (forall i, j | 0 <= i < j < |run| :: run[i].server <= run[j].server)
    && forall i | 0 <= i < |run| :: -behind <= run[i].now - run[i].server <= ahead
  }

  /** No write is dated after the latest fetch, or after the deadline allows. */
  ghost predicate DatedBy(run: seq<Fetch>, ahead: int) {
    var k, log := KeysAfter(run), LogOf(run);
    && (run != [] ==> forall r | r in log :: log[r].score <= run[|run| - 1].server + ahead)
    && (k.deadline.Some? ==> forall r | r in log :: log[r].score <= k.deadline.value - KEY_TTL + ahead)
  }

  lemma {:induction false} RunDated(run: seq<Fetch>, ahead: int, behind: int)
    requires Synchronised(run, ahead, behind)
    ensures DatedBy(run, ahead)
  {
    if run != [] {
      var prefix := run[..|run| - 1];
      RunDated(prefix, ahead, behind);
      assert prefix != [] ==> prefix[|prefix| - 1] == run[|run| - 2];
    }
  }

  lemma {:induction false} SynchronisedLosesNothing(run: seq<Fetch>, ahead: int, behind: int, bound: int)
    requires Synchronised(run, ahead, behind)
    requires forall f | f in run :: f.now - LARGEST_WINDOW < bound && f.server - KEY_TTL + ahead < bound
    ensures NothingLost(KeysAfter(run), LogOf(run), bound)
  {
    if run != [] {
      var prefix := run[..|run| - 1];
      SynchronisedLosesNothing(prefix, ahead, behind, bound);
      RunRepresents(prefix);
      RunDated(prefix, ahead, behind);
      FetchLosesNothing(KeysAfter(prefix), LogOf(prefix), run[|run| - 1], bound);
    }
  }

  /** With clocks together within thirty days less the window, neither trimming nor
      key expiry ever makes a window inexact. */
  lemma {:induction false} SynchronisedExact(run: seq<Fetch>, seconds: int, ahead: int, behind: int)
    requires run != [] && Synchronised(run, ahead, behind)
    requires ahead + behind < LARGEST_WINDOW - seconds
    requires 0 <= seconds
    requires |InWindow(LogOf(run), run[|run| - 1].now - seconds)| <= MAX_MEMBERS_FETCHED
    ensures ExactlyTheLog(run, seconds)
  {
    var last := run[|run| - 1];
    assert -behind <= last.now - last.server <= ahead;
    forall f | f in run
      ensures f.now - LARGEST_WINDOW < last.now - seconds && f.server - KEY_TTL + ahead < last.now - seconds
    {
      var i :| 0 <= i < |run| && run[i] == f;
      assert f.server <= last.server;
    }
    SynchronisedLosesNothing(run, ahead, behind, last.now - seconds);
    ExactWhenNothingLost(run, seconds);
  }

  /** At exactly thirty days the trim and the window disagree: the trim drops a
      write that the thirty-day window would still have counted. */
  lemma {:induction false} ThirtyDayBoundaryIsLost()
    ensures var run := [Fetch(1, 1, Some(Record("a", 5, "t"))),
                        Fetch(1 + LARGEST_WINDOW, 1 + LARGEST_WINDOW, None)];
            && WithinLifetime(run) && LastWrite(run, 0) && TrimmedBy(run, 0, 1)
            && Count(LastView(run), LARGEST_WINDOW, NO_FILTER) == Val(0)
            && |InWindow(LogOf(run), run[1].now - LARGEST_WINDOW)| == 1
  {
    var first, second := Fetch(1, 1, Some(Record("a", 5, "t"))), Fetch(1 + LARGEST_WINDOW, 1 + LARGEST_WINDOW, None);
    var run := [first, second];
    assert run[..1] == [first] && run[..0] == [] && [first][..0] == [];
    assert KeysAfter([first]).members == [Member("a", 1)];
    assert KeysAfter(run).members == [];
    assert LogOf([first]) == map["a" := Logged(1, 5, "t")];
    assert LogOf(run) == map["a" := Logged(1, 5, "t")];
    assert InWindow(LogOf(run), 1) == {"a"};
    assert LastWriter(run[..0]) == None && LastWriter(run[..1]) == Some(0);
  }
}
