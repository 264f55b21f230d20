/** What the keys remember of a customer, told by the writes of the whole run, and the
    facts about history that rules get to see of it. */
module CustomerFacts {
  import opened Values
  import opened Velocity
  import opened VelocityRefinement
  import opened VelocityRuns
  import opened VelocityThresholds
  import opened Functions
  import opened Handler
  import opened FactSources

  // ----------------------------------------------------------- lifetime numbers

  /** The fetches of a run that recorded a transaction. */
  function Writes(run: seq<Fetch>): seq<Fetch> {
    if run == [] then []
    else Writes(run[..|run| - 1]) + if run[|run| - 1].record.Some? then [run[|run| - 1]] else []
  }

  function Volume(run: seq<Fetch>): int {
    if run == [] then 0
    else
      var r := run[|run| - 1].record;
      Volume(run[..|run| - 1]) + if r.Some? then r.value.amount else 0
  }

  /** Expiry never touches the lifetime numbers: over any run they count and sum every
      write and keep the clocks of the first and the last; nothing here sets flags. */
  lemma {:induction false} LifetimeIs(run: seq<Fetch>)
    ensures var a, writes := KeysAfter(run).aggregates, Writes(run);
            && a.count == |writes| && a.volume == Volume(run) && a.flags == 0
            && (writes == [] ==> a.firstSeen.None? && a.lastSeen.None?)
            && (writes != [] ==> a.firstSeen == Some(writes[0].now) && a.lastSeen == Some(writes[|writes| - 1].now))
  {
    if run != [] {
      LifetimeIs(run[..|run| - 1]);
      FetchedAggregates(KeysAfter(run[..|run| - 1]), run[|run| - 1]);
    }
  }

  lemma {:induction false} FetchedAggregates(k: Keys, f: Fetch)
    ensures var a, a' := k.aggregates, After(k, f).aggregates;
            if f.record.None? then a' == a
            else && a'.count == a.count + 1 && a'.volume == a.volume + f.record.value.amount && a'.flags == a.flags
                 && a'.firstSeen == (if a.firstSeen.None? then Some(f.now) else a.firstSeen)
                 && a'.lastSeen == Some(f.now)
  {
  }

  // -------------------------------------------------------------- the six facts

  /** `d` whole days fit in this many seconds, and not one more; none in the past. */
  predicate DaysIn(d: int, seconds: int) {
    if seconds < 0 then d == 0 else 86_400 * d <= seconds < 86_400 * (d + 1)
  }

  /** The whole days since `seen`, by the window's clock. A clock of 0 reads as never. */
  predicate DaysSinceSeen(v: Value, seen: int, now: int) {
    v.Int? && if seen == 0 then v.n == 0 else DaysIn(v.n, now - seen)
  }

  /** The whole average, rounded down, and 0 of nothing. */
  predicate AverageOf(v: Value, count: nat, volume: int) {
    v.Int? && if count == 0 then v.n == 0 else v.n * count <= volume < (v.n + 1) * count
  }

  predicate Holds(facts: Facts, name: string, v: Value) {
    name in facts && facts[name] == v
  }

  lemma {:induction false} DaysFromIs(seen: int, now: int)
    ensures DaysSinceSeen(DaysFrom(Some(seen), now), seen, now)
  {
  }

  lemma {:induction false} FloorOfAverage(volume: int, count: nat)
    requires count > 0
    ensures var q := volume / count; q * count <= volume < (q + 1) * count
  {
    assert volume == (volume / count) * count + volume % count;
  }

  lemma {:induction false} AverageIs(a: Aggregates, now: int)
    requires a.count >= 0
    ensures AverageOf(AggregateFacts(a, now)["average_transaction_minor"], a.count, a.volume)
  {
    if a.count > 0 {
      FloorOfAverage(a.volume, a.count);
    }
  }

  /** Every history fact of a decision, told by the writes of the run that led to it. */
  ghost predicate TellsHistory(facts: Facts, run: seq<Fetch>, now: int) {
    var writes := Writes(run);
    && Holds(facts, "lifetime_transaction_count", Int(|writes|))
    && Holds(facts, "lifetime_volume_minor", Int(Volume(run)))
    && Holds(facts, "prior_flag_count", Int(0))
    && "average_transaction_minor" in facts
    && AverageOf(facts["average_transaction_minor"], |writes|, Volume(run))
    && "days_since_last_activity" in facts && "customer_known_days" in facts
    && var idle, known := facts["days_since_last_activity"], facts["customer_known_days"];
       if writes == [] then idle == Int(0) && known == Int(0)
       else DaysSinceSeen(idle, writes[|writes| - 1].now, now) && DaysSinceSeen(known, writes[0].now, now)
  }

  lemma {:induction false} AggregatesTell(run: seq<Fetch>, now: int)
    ensures TellsHistory(AggregateFacts(KeysAfter(run).aggregates, now), run, now)
  {
    var a, writes := KeysAfter(run).aggregates, Writes(run);
    LifetimeIs(run);
    AverageIs(a, now);
    if writes != [] {
      DaysFromIs(writes[0].now, now);
      DaysFromIs(writes[|writes| - 1].now, now);
    }
  }

  /** What a decision knows of a customer's history is what the writes of the run say,
      as long as no named list takes the fact's name. */
  lemma {:induction false} HistoryIsTold(t: Transaction, run: seq<Fetch>, lists: Lists)
    requires run != [] && forall name | HistoryName(name) :: NoListNamed(lists, name)
    ensures TellsHistory(FactsFor(t, Live(LastView(run)), lists), run, run[|run| - 1].now)
  {
    var p, now := Live(LastView(run)), run[|run| - 1].now;
    var a := KeysAfter(run).aggregates;
    AggregatesTell(run, now);
    forall name | HistoryName(name)
      ensures name in AggregateFacts(a, now) && Holds(FactsFor(t, p, lists), name, AggregateFacts(a, now)[name]) {
      UnlistedFact(t, p, lists, name);
    }
    assert HistoryName("lifetime_transaction_count") && HistoryName("lifetime_volume_minor");
    assert HistoryName("prior_flag_count") && HistoryName("average_transaction_minor");
    assert HistoryName("days_since_last_activity") && HistoryName("customer_known_days");
  }

  // ---------------------------------------------------------- what a view leaves out

  /** The members of the last thirty days. */
  function Recent(z: seq<Member>, now: int): set<Member> {
    set m | m in z && m.score >= now - 30 * 86_400
  }

  predicate Shows(w: Window, m: Member) {
    exists e | e in w.entries :: e.ref == m.ref && e.score == m.score
  }

  lemma {:induction false} RecentSize(z: seq<Member>, now: int)
    requires Ordered(z)
    ensures |AtLeast(z, now - LARGEST_WINDOW)| == |Recent(z, now)|
  {
    KeepExactly(z, ScoredFrom(now - LARGEST_WINDOW));
    ElementsExactly(AtLeast(z, now - LARGEST_WINDOW));
    assert Elements(AtLeast(z, now - LARGEST_WINDOW)) == Recent(z, now);
  }

  lemma {:induction false} ShownIff(k: Keys, now: int, m: Member)
    ensures Shows(View(k, now), m) <==> m in Seen(k, now, LARGEST_WINDOW)
  {
    var z, es := Seen(k, now, LARGEST_WINDOW), View(k, now).entries;
    if m in z {
      var i :| 0 <= i < |z| && z[i] == m;
      assert es[i] in es;
    }
    if Shows(View(k, now), m) {
      var e :| e in es && e.ref == m.ref && e.score == m.score;
      var i :| 0 <= i < |es| && es[i] == e;
      assert z[i] == m;
    }
  }

  lemma {:induction false} LeftOutIsOlder(z: seq<Member>, from: nat, m: Member, x: Member)
    requires Ordered(z) && from <= |z| && m in z && m !in z[from..] && x in z[from..]
    ensures m.score <= x.score
  {
    assert z == z[..from] + z[from..];
    var i :| 0 <= i < from && z[..from][i] == m;
    var j :| 0 <= j < |z| - from && z[from..][j] == x;
    ScoresRise(z, i, from + j);
  }

  lemma {:induction false} ScoresRise(z: seq<Member>, i: nat, j: nat)
    requires Ordered(z) && i <= j < |z|
    ensures z[i].score <= z[j].score
  {
    if 0 < i {
      ScoresRise(z[1..], i - 1, j - 1);
    } else if j > 0 {
      assert z[j] == z[1..][j - 1];
    }
  }

  lemma {:induction false} SeenKeepsNewest(k: Keys, now: int, m: Member, x: Member)
    requires Ordered(k.members) && m in Recent(k.members, now)
    requires m !in Seen(k, now, LARGEST_WINDOW) && x in Seen(k, now, LARGEST_WINDOW)
    ensures m.score <= x.score
  {
    var inside := AtLeast(k.members, now - LARGEST_WINDOW);
    KeepExactly(k.members, ScoredFrom(now - LARGEST_WINDOW));
    LeftOutIsOlder(inside, |inside| - MAX_MEMBERS_FETCHED, m, x);
  }

  /** A window shows members of the last thirty days, up to 5,000 of them and the newest
      when there are more; and it says when it left some out. */
  lemma {:induction false} ViewKeepsNewest(run: seq<Fetch>)
    requires run != []
    ensures var w, recent := LastView(run), Recent(KeysAfter(run).members, run[|run| - 1].now);
            && |w.entries| == (if |recent| > 5_000 then 5_000 else |recent|)
            && (w.truncated <==> |recent| > 5_000)
            && (forall m | Shows(w, m) :: m in recent)
            && forall m, x | m in recent && !Shows(w, m) && Shows(w, x) :: m.score <= x.score
  {
    RunOrdered(run);
    ViewOfOrdered(KeysAfter(run), run[|run| - 1].now);
  }

  lemma {:induction false} ViewOfOrdered(k: Keys, now: int)
    requires Ordered(k.members)
    ensures var w, recent := View(k, now), Recent(k.members, now);
            && |w.entries| == (if |recent| > 5_000 then 5_000 else |recent|)
            && (w.truncated <==> |recent| > 5_000)
            && (forall m | Shows(w, m) :: m in recent)
            && forall m, x | m in recent && !Shows(w, m) && Shows(w, x) :: m.score <= x.score
  {
    RecentSize(k.members, now);
    SeenIsOrdered(k, now, LARGEST_WINDOW);
    forall m ensures Shows(View(k, now), m) <==> m in Seen(k, now, LARGEST_WINDOW) {
      ShownIff(k, now, m);
    }
    forall m, x | m in Recent(k.members, now) && !Shows(View(k, now), m) && Shows(View(k, now), x)
      ensures m.score <= x.score {
      SeenKeepsNewest(k, now, m, x);
    }
  }

  // ------------------------------------------------------- one's own transaction

  lemma {:induction false} OwnEntry(k: Keys, now: int, ref: string, amount: int, kind: string)
    requires Member(ref, now) in k.members && ref in k.amounts && k.amounts[ref] == Encode(amount, kind)
    ensures !View(k, now).truncated ==> Entry(ref, now, amount, kind) in View(k, now).entries
    ensures k.members == [Member(ref, now)] ==> View(k, now).entries == [Entry(ref, now, amount, kind)]
  {
    var m, read := Member(ref, now), AtLeast(k.members, now - LARGEST_WINDOW);
    EncodingRoundTrips(amount, kind);
    KeepExactly(k.members, ScoredFrom(now - LARGEST_WINDOW));
    var i :| 0 <= i < |read| && read[i] == m;
    if k.members == [m] {
      KeepEverything(k.members, ScoredFrom(now - LARGEST_WINDOW));
    }
    if |read| <= MAX_MEMBERS_FETCHED {
      assert View(k, now).entries[i] == EntryOf(m, k.amounts);
    }
  }

  /** A decision's window already holds the transaction it is about, with its amount and
      type, unless it had to leave something out. */
  lemma {:induction false} OwnWriteShown(t: Transaction, run: seq<Fetch>, server: int, now: int)
    ensures var w := LastView(run + [FetchOf(t, server, now)]);
            !w.truncated ==> Entry(t.ref, now, t.amount, t.kind) in w.entries
  {
    var f := FetchOf(t, server, now);
    var k := Trimmed(Expired(KeysAfter(run), server), now);
    assert (run + [f])[..|run|] == run;
    AddExactly(k.members, Member(t.ref, now));
    OwnEntry(KeysAfter(run + [f]), now, t.ref, t.amount, t.kind);
  }

  // ------------------------------------------------------------------- forgetting

  /** Keys that hold anything expire thirty-one days after some write. */
  lemma {:induction false} DeadlineFromWrite(run: seq<Fetch>)
    ensures var k := KeysAfter(run);
            k.members != [] ==>
              k.deadline.Some? && exists f | f in Writes(run) :: k.deadline.value == f.server + 31 * 86_400
  {
    if run != [] {
      var earlier, last := run[..|run| - 1], run[|run| - 1];
      DeadlineFromWrite(earlier);
      if last.record.Some? {
        assert last in Writes(run);
      } else {
        TrimOfNothing(Expired(KeysAfter(earlier), last.server).members, last.now - LARGEST_WINDOW);
      }
    }
  }

  lemma {:induction false} TrimOfNothing(z: seq<Member>, cutoff: int)
    ensures Trim(z, cutoff) != [] ==> z != []
  {
  }

  /** Once every earlier write is thirty-one days past by the server's clock, a window
      knows nothing but its own write. */
  lemma {:induction false} ExpiryForgets(run: seq<Fetch>, last: Fetch)
    requires forall f | f in Writes(run) :: f.server + 31 * 86_400 <= last.server
    ensures LastView(run + [last]).entries
         == match last.record
            case None => []
            case Some(r) => [Entry(r.ref, last.now, r.amount, r.kind)]
  {
    var k := KeysAfter(run);
    DeadlineFromWrite(run);
    assert (run + [last])[..|run|] == run;
    assert Expired(k, last.server).members == [];
    if last.record.Some? {
      var r := last.record.value;
      assert After(k, last).members == [Member(r.ref, last.now)];
      OwnEntry(After(k, last), last.now, r.ref, r.amount, r.kind);
    }
  }
}
