/** What the windows promise a rule that compares them with a number. */
module VelocityThresholds {
  import opened Values
  import opened Velocity
  import opened VelocityRefinement
  import opened VelocityRuns

  // ----------------------------------------------------------------- retries

  lemma {:induction false} OrderedSize(z: seq<Member>)
    requires Ordered(z)
    ensures |z| == |Refs(z)|
  {
    if z != [] {
      OrderedSize(z[1..]);
      RefsExactly(z[1..], z[0].ref);
    }
  }

  lemma {:induction false} RepeatKeepsSize(z: seq<Member>, m: Member, cutoff: int)
    requires Ordered(z) && m.score >= cutoff
    requires exists held | held in z :: held.ref == m.ref && held.score >= cutoff
    ensures |AtLeast(Add(z, m), cutoff)| == |AtLeast(z, cutoff)|
  {
    AddExactly(z, m);
    KeepExactly(z, ScoredFrom(cutoff));
    KeepExactly(Add(z, m), ScoredFrom(cutoff));
    var before, after := AtLeast(z, cutoff), AtLeast(Add(z, m), cutoff);
    OrderedSize(before);
    OrderedSize(after);
    forall r | r in Refs(before) ensures r in Refs(after) {
      RefsExactly(before, r);
      RefsExactly(after, r);
      if r == m.ref {
        assert m in after;
      } else {
        var x :| x in before && x.ref == r;
        assert x in after;
      }
    }
    forall r | r in Refs(after) ensures r in Refs(before) {
      RefsExactly(before, r);
      RefsExactly(after, r);
      if r == m.ref {
        var held :| held in z && held.ref == m.ref && held.score >= cutoff;
        assert held in before;
      } else {
        var x :| x in after && x.ref == r;
        assert x in before;
      }
    }
    assert Refs(before) == Refs(after);
  }

  /** Recording a reference that the window already counts leaves the count at what
      merely reading the window at that moment would have given. */
  lemma {:induction false} RetryNeverRaises(k: Keys, log: Log, f: Fetch, seconds: int)
    requires Represents(k, log) && 0 <= seconds <= LARGEST_WINDOW && f.record.Some?
    requires exists m | m in After(k, f.(record := None)).members ::
               m.ref == f.record.value.ref && m.score >= f.now - seconds
    ensures Count(View(After(k, f), f.now), seconds, NO_FILTER)
         == Count(View(After(k, f.(record := None)), f.now), seconds, NO_FILTER)
  {
    var read, written := After(k, f.(record := None)), After(k, f);
    AfterRepresents(k, log, f);
    AfterRepresents(k, log, f.(record := None));
    RepeatKeepsSize(read.members, Member(f.record.value.ref, f.now), f.now - seconds);
    MembersCounted(read, f.now, seconds);
    MembersCounted(written, f.now, seconds);
  }

  lemma {:induction false} SumOverAgrees(a: Log, b: Log, s: set<string>)
    requires s <= a.Keys && s <= b.Keys && forall r | r in s :: a[r].amount == b[r].amount
    ensures SumOver(a, s) == SumOver(b, s)
  {
    if s != {} {
      var r :| r in s;
      SumOverAdds(a, s, r);
      SumOverAdds(b, s, r);
      SumOverAgrees(a, b, s - {r});
    }
  }

  /** The fetch repeats a write that the window still counts. */
  ghost predicate Repeats(k: Keys, log: Log, f: Fetch, seconds: int) {
    && f.record.Some? && f.record.value.ref in log
    && log[f.record.value.ref].amount == f.record.value.amount && log[f.record.value.ref].kind == f.record.value.kind
    && exists m | m in After(k, f.(record := None)).members ::
         m.ref == f.record.value.ref && m.score >= f.now - seconds
  }

  lemma {:induction false} RepeatKeeps(k: Keys, log: Log, f: Fetch, seconds: int, filter: Filter)
    requires Represents(k, log) && 0 <= seconds && Repeats(k, log, f, seconds)
    ensures Kept(After(k, f), LogAfter(log, f), f.now - seconds, filter)
         == Kept(After(k, f.(record := None)), log, f.now - seconds, filter)
  {
    var read, written, r := After(k, f.(record := None)), After(k, f), f.record.value.ref;
    AfterRepresents(k, log, f.(record := None));
    AddExactly(read.members, Member(r, f.now));
    RefsExactly(read.members, r);
    forall x ensures x in Refs(written.members) <==> x in Refs(read.members) {
      RefsExactly(read.members, x);
      RefsExactly(written.members, x);
      if x == r {
        assert Member(r, f.now) in written.members;
      } else if x in Refs(read.members) {
        var m :| m in read.members && m.ref == x;
        assert m in written.members;
      }
    }
    assert Selected(LogAfter(log, f), f.now - seconds, filter) == Selected(log, f.now - seconds, filter);
  }

  /** Two states of the keys that keep the same references, with the same amounts,
      answer alike. */
  lemma {:induction false} SameKeptSameAnswers(k: Keys, log: Log, k': Keys, log': Log, now: int, seconds: int,
                                               filter: Filter)
    requires Represents(k, log) && Represents(k', log') && seconds <= LARGEST_WINDOW && WellTyped(filter)
    requires |AtLeast(k.members, now - seconds)| <= MAX_MEMBERS_FETCHED
    requires |AtLeast(k'.members, now - seconds)| <= MAX_MEMBERS_FETCHED
    requires Kept(k, log, now - seconds, filter) == Kept(k', log', now - seconds, filter)
    requires forall r | r in log && r in log' :: log[r].amount == log'[r].amount
    ensures Count(View(k', now), seconds, filter) == Count(View(k, now), seconds, filter)
    ensures Total(View(k', now), seconds, filter) == Total(View(k, now), seconds, filter)
  {
    ViewCountsKept(k, log, now, seconds, filter);
    ViewCountsKept(k', log', now, seconds, filter);
    SumOverAgrees(log, log', Kept(k, log, now - seconds, filter));
  }

  /** Repeating a write that the window counts, amount and type included, changes no
      count and no sum of it, whatever the filter; the lifetime count does go up. */
  lemma {:induction false} RetryChangesNothing(k: Keys, log: Log, f: Fetch, seconds: int, filter: Filter)
    requires Represents(k, log) && 0 <= seconds <= LARGEST_WINDOW && WellTyped(filter) && Repeats(k, log, f, seconds)
    requires |AtLeast(After(k, f.(record := None)).members, f.now - seconds)| <= MAX_MEMBERS_FETCHED
    ensures var read, written := After(k, f.(record := None)), After(k, f);
            && Count(View(written, f.now), seconds, filter) == Count(View(read, f.now), seconds, filter)
            && Total(View(written, f.now), seconds, filter) == Total(View(read, f.now), seconds, filter)
            && written.aggregates.count == read.aggregates.count + 1
  {
    var read, written := After(k, f.(record := None)), After(k, f);
    AfterRepresents(k, log, f);
    AfterRepresents(k, log, f.(record := None));
    RepeatKeepsSize(read.members, Member(f.record.value.ref, f.now), f.now - seconds);
    RepeatKeeps(k, log, f, seconds, filter);
    SameKeptSameAnswers(read, log, written, LogAfter(log, f), f.now, seconds, filter);
  }

  // -------------------------------------------------------- lifetime numbers

  lemma {:induction false} SumOverGrows(log: Log, small: set<string>, large: set<string>)
    requires small <= large <= log.Keys && forall r | r in log :: log[r].amount >= 0
    ensures SumOver(log, small) <= SumOver(log, large)
  {
    if r: string :| r in large && r !in small {
      SumOverAdds(log, large, r);
      SumOverGrows(log, small, large - {r});
    } else {
      assert small == large;
    }
  }

  /** `amount_minor` is never negative on the request path. */
  ghost predicate AmountsNatural(run: seq<Fetch>) {
    forall f | f in run && f.record.Some? :: f.record.value.amount >= 0
  }

  lemma {:induction false} LifetimeCoversLog(run: seq<Fetch>)
    requires AmountsNatural(run)
    ensures |LogOf(run)| <= KeysAfter(run).aggregates.count
    ensures SumOver(LogOf(run), LogOf(run).Keys) <= KeysAfter(run).aggregates.volume
    ensures forall r | r in LogOf(run) :: LogOf(run)[r].amount >= 0
  {
    if run != [] {
      var prefix, f := run[..|run| - 1], run[|run| - 1];
      LifetimeCoversLog(prefix);
      if f.record.Some? {
        LogWriteCovered(LogOf(prefix), f.record.value.ref, Logged(f.now, f.record.value.amount, f.record.value.kind));
      }
    }
  }

  lemma {:induction false} LogWriteCovered(log: Log, ref: string, l: Logged)
    requires forall r | r in log :: log[r].amount >= 0
    ensures var log' := log[ref := l];
            && |log'| <= |log| + 1
            && SumOver(log', log'.Keys) <= SumOver(log, log.Keys) + l.amount
  {
    var log' := log[ref := l];
    assert log'.Keys == log.Keys + {ref};
    var rest := log.Keys - {ref};
    assert log'.Keys - {ref} == rest;
    SumOverAdds(log', log'.Keys, ref);
    SumOverAgrees(log, log', rest);
    SumOverGrows(log, rest, log.Keys);
  }

  /** No window count exceeds the lifetime count and no window sum the lifetime
      volume, whatever the window and filter, in any run. */
  lemma {:induction false} WindowsWithinLifetime(run: seq<Fetch>, seconds: int, f: Filter)
    requires run != [] && AmountsNatural(run) && seconds <= LARGEST_WINDOW && WellTyped(f)
    ensures var w := LastView(run);
            && Count(w, seconds, f).Val? && Count(w, seconds, f).v <= w.aggregates.count
            && Total(w, seconds, f).Val? && Total(w, seconds, f).v <= w.aggregates.volume
  {
    var k, log, now := KeysAfter(run), LogOf(run), run[|run| - 1].now;
    RunRepresents(run);
    LifetimeCoversLog(run);
    ViewSees(k, log, now, seconds, f);
    var chosen := Chosen(Seen(k, now, seconds), log, now - seconds, f);
    SmallerSubset(chosen, log.Keys);
    SumOverGrows(log, chosen, log.Keys);
  }

  // ------------------------------------------------------------------ bursts

  /** A burst: every fetch records a new reference, every two clocks are at most
      `seconds` apart (and less than thirty days), and the server's clock takes less
      than the keys' lifetime from one fetch to the next. */
  ghost predicate Burst(run: seq<Fetch>, seconds: int) {
    && (forall i | 0 <= i < |run| :: run[i].record.Some?)
    && (forall i, j | 0 <= i < j < |run| :: run[i].record.value.ref != run[j].record.value.ref)
    && (forall i, j | 0 <= i < |run| && 0 <= j < |run| ::
          run[i].now - run[j].now <= seconds && run[i].now - run[j].now < LARGEST_WINDOW)
    && forall i, j | 0 <= i < |run| && j == i + 1 && j < |run| :: InLifetime(run, i, j)
  }

  lemma {:induction false} BurstPrefix(run: seq<Fetch>, seconds: int, n: nat)
    requires Burst(run, seconds) && n <= |run|
    ensures Burst(run[..n], seconds)
  {
    forall i, j | 0 <= i < n && j == i + 1 && j < n ensures InLifetime(run[..n], i, j) {
      assert InLifetime(run, i, j);
    }
  }

  /** The member a recording fetch writes. */
  function Mark(f: Fetch): Member
    requires f.record.Some?
  {
    Member(f.record.value.ref, f.now)
  }

  function Marks(run: seq<Fetch>): set<Member> {
    if run == [] then {}
    else
      var last := run[|run| - 1];
      Marks(run[..|run| - 1]) + (if last.record.Some? then {Mark(last)} else {})
  }

  lemma {:induction false} MarkedBy(run: seq<Fetch>, m: Member) returns (i: nat)
    requires m in Marks(run)
    ensures i < |run| && run[i].record.Some? && Mark(run[i]) == m
  {
    i := |run| - 1;
    if !(run[i].record.Some? && Mark(run[i]) == m) {
      i := MarkedBy(run[..|run| - 1], m);
    }
  }

  lemma {:induction false} MarksCount(burst: seq<Fetch>, seconds: int)
    requires Burst(burst, seconds)
    ensures |Marks(burst)| == |burst|
  {
    if burst != [] {
      var shorter, f := burst[..|burst| - 1], burst[|burst| - 1];
      BurstPrefix(burst, seconds, |burst| - 1);
      MarksCount(shorter, seconds);
      ApartFrom(burst, seconds);
      assert Mark(f) !in Marks(shorter);
    }
  }

  /** These members are held, and besides them nothing that was not held earlier. */
  ghost predicate HoldsBeside(z: seq<Member>, marks: set<Member>, earlier: seq<Member>) {
    (forall m | m in marks :: m in z) && forall m | m in z :: m in earlier || m in marks
  }

  /** One more fetch: the members it leaves are its own and those it does not trim. */
  lemma {:induction false} FetchMembers(k: Keys, log: Log, f: Fetch)
    requires Represents(k, log) && f.record.Some?
    ensures Mark(f) in After(k, f).members && After(k, f).deadline == Some(f.server + KEY_TTL)
    ensures forall m | m in After(k, f).members :: m == Mark(f) || m in k.members
    ensures !Expires(k, f) ==> forall m | m in k.members && m.ref != Mark(f).ref && f.now - m.score < LARGEST_WINDOW ::
              m in After(k, f).members
  {
    var e := Expired(k, f.server);
    KeepExactly(e.members, Outlives(f.now - LARGEST_WINDOW));
    AddExactly(Trim(e.members, f.now - LARGEST_WINDOW), Mark(f));
  }

  lemma {:induction false} BurstStep(k: Keys, log: Log, f: Fetch, marks: set<Member>, earlier: seq<Member>)
    requires Represents(k, log) && f.record.Some? && (marks != {} ==> !Expires(k, f))
    requires forall m | m in marks :: m.ref != Mark(f).ref && f.now - m.score < LARGEST_WINDOW
    requires HoldsBeside(k.members, marks, earlier)
    ensures HoldsBeside(After(k, f).members, marks + {Mark(f)}, earlier)
  {
    FetchMembers(k, log, f);
  }

  /** A burst's own writes are what it adds to the keys, however they stood before;
      and its last fetch set the deadline. */
  lemma {:induction false} BurstHeld(before: seq<Fetch>, burst: seq<Fetch>, seconds: int)
    requires Burst(burst, seconds)
    ensures HoldsBeside(KeysAfter(before + burst).members, Marks(burst), KeysAfter(before).members)
    ensures burst != [] ==> KeysAfter(before + burst).deadline == Some(burst[|burst| - 1].server + KEY_TTL)
  {
    if burst == [] {
      assert before + burst == before;
    } else {
      var shorter, f := burst[..|burst| - 1], burst[|burst| - 1];
      var run := before + shorter;
      assert (before + burst)[..|before + burst| - 1] == run;
      BurstPrefix(burst, seconds, |burst| - 1);
      BurstHeld(before, shorter, seconds);
      RunRepresents(run);
      ApartFrom(burst, seconds);
      FetchMembers(KeysAfter(run), LogOf(run), f);
      BurstStep(KeysAfter(run), LogOf(run), f, Marks(shorter), KeysAfter(before).members);
    }
  }

  lemma {:induction false} ApartFrom(burst: seq<Fetch>, seconds: int)
    requires Burst(burst, seconds) && burst != []
    ensures var shorter, f := burst[..|burst| - 1], burst[|burst| - 1];
            && (forall m | m in Marks(shorter) :: m.ref != Mark(f).ref && f.now - m.score < LARGEST_WINDOW)
            && (shorter == [] ==> Marks(shorter) == {})
            && (shorter != [] ==> f.server < shorter[|shorter| - 1].server + KEY_TTL)
  {
    var shorter, f := burst[..|burst| - 1], burst[|burst| - 1];
    forall m | m in Marks(shorter) ensures m.ref != Mark(f).ref && f.now - m.score < LARGEST_WINDOW {
      var i := MarkedBy(shorter, m);
      assert burst[i] == shorter[i];
    }
    assert |burst| > 1 ==> InLifetime(burst, |burst| - 2, |burst| - 1);
  }

  function Elements(z: seq<Member>): set<Member> {
    if z == [] then {} else {z[0]} + Elements(z[1..])
  }

  lemma {:induction false} ElementsExactly(z: seq<Member>)
    ensures forall m :: m in Elements(z) <==> m in z
    ensures Ordered(z) ==> |Elements(z)| == |z|
  {
    if z != [] {
      ElementsExactly(z[1..]);
    }
  }

  /** At this moment the window counts nothing. */
  predicate WindowEmpty(k: Keys, now: int, seconds: int) {
    Count(View(k, now), seconds, NO_FILTER) == Val(0)
  }

  lemma {:induction false} EmptyIsOld(k: Keys, now: int, seconds: int)
    requires Ordered(k.members) && seconds <= LARGEST_WINDOW && WindowEmpty(k, now, seconds)
    ensures forall m | m in k.members :: m.score < now - seconds
  {
    MembersCounted(k, now, seconds);
    KeepExactly(k.members, ScoredFrom(now - seconds));
    forall m | m in k.members ensures m.score < now - seconds {
      assert m !in AtLeast(k.members, now - seconds);
    }
  }

  lemma {:induction false} MarksInWindow(z: seq<Member>, marks: set<Member>, earlier: seq<Member>, cutoff: int)
    requires Ordered(z) && HoldsBeside(z, marks, earlier)
    requires (forall m | m in marks :: m.score >= cutoff) && forall m | m in earlier :: m.score < cutoff
    ensures |AtLeast(z, cutoff)| == |marks|
  {
    KeepExactly(z, ScoredFrom(cutoff));
    ElementsExactly(AtLeast(z, cutoff));
    assert Elements(AtLeast(z, cutoff)) == marks;
  }

  lemma {:induction false} MarksRecent(burst: seq<Fetch>, seconds: int)
    requires Burst(burst, seconds) && burst != []
    ensures forall m | m in Marks(burst) :: m.score >= burst[|burst| - 1].now - seconds
  {
    forall m | m in Marks(burst) ensures m.score >= burst[|burst| - 1].now - seconds {
      var i := MarkedBy(burst, m);
    }
  }

  lemma {:induction false} RunOrdered(run: seq<Fetch>)
    ensures Ordered(KeysAfter(run).members)
  {
    RunRepresents(run);
  }

  lemma {:induction false} BurstCounted(k: Keys, earlier: seq<Member>, burst: seq<Fetch>, seconds: int)
    requires Burst(burst, seconds) && burst != [] && seconds <= LARGEST_WINDOW
    requires Ordered(k.members) && HoldsBeside(k.members, Marks(burst), earlier)
    requires forall m | m in earlier :: m.score < burst[|burst| - 1].now - seconds
    ensures Count(View(k, burst[|burst| - 1].now), seconds, NO_FILTER) == Val(Min(|burst|, MAX_MEMBERS_FETCHED))
  {
    var now := burst[|burst| - 1].now;
    MarksRecent(burst, seconds);
    MarksInWindow(k.members, Marks(burst), earlier, now - seconds);
    MarksCount(burst, seconds);
    MembersCounted(k, now, seconds);
  }

  /** From a window that is empty at each of their clocks, whatever came before, the
      n-th decision of a burst sees a count of n, or 5,000 once n passes it. */
  lemma {:induction false} BurstCounts(before: seq<Fetch>, burst: seq<Fetch>, seconds: int)
    requires burst != [] && Burst(burst, seconds) && seconds <= LARGEST_WINDOW
    requires forall f | f in burst :: WindowEmpty(KeysAfter(before), f.now, seconds)
    ensures Count(LastView(before + burst), seconds, NO_FILTER) == Val(Min(|burst|, MAX_MEMBERS_FETCHED))
  {
    var last := burst[|burst| - 1];
    RunOrdered(before);
    EmptyIsOld(KeysAfter(before), last.now, seconds);
    RunOrdered(before + burst);
    BurstHeld(before, burst, seconds);
    BurstCounted(KeysAfter(before + burst), KeysAfter(before).members, burst, seconds);
    assert (before + burst)[|before + burst| - 1] == last;
  }
}
