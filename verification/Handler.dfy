/** From a validated request to a decision: gather, build the facts, evaluate.

    `DecisionHandler` performs the steps on the shared velocity store and is proved
    against `DecisionWith`, which the lemmas are about. */
module Handler {
  import opened Values
  import opened Syntax
  import opened Arithmetic
  import opened Interpretation
  import opened Velocity
  import opened Functions
  import opened Evaluation
  import opened Outage

  type Facts = map<string, Value>

  /** The items of a dictionary, in its order. */
  type Items = seq<(string, Value)>
  type Lists = seq<(string, seq<Value>)>

  datatype Transaction = Transaction(ref: string, amount: int, currency: string, kind: string, channel: string,
                                     customer: Items, destination: Items, device: Items)

  const CUSTOMER_FIELDS := {"kyc_tier", "account_created_at", "country", "last_transaction_at"}
  const DESTINATION_FIELDS := {"country", "bank_code", "is_new_beneficiary"}
  const DEVICE_FIELDS := {"id", "ip_country"}

  /** Unknown fields are refused before a request gets here. */
  ghost predicate Accepted(t: Transaction) {
    && (forall i | i in t.customer :: i.0 in CUSTOMER_FIELDS)
    && (forall i | i in t.destination :: i.0 in DESTINATION_FIELDS)
    && forall i | i in t.device :: i.0 in DEVICE_FIELDS
  }

  // -------------------------------------------------------------------- facts

  function WholeDays(seconds: int): int {
    if seconds < 0 then 0 else seconds / 86_400
  }

  function DaysFrom(seen: Option<int>, now: int): Value {
    Int(if seen.None? || seen.value == 0 then 0 else WholeDays(now - seen.value))
  }

  function AggregateFacts(a: Aggregates, now: int): Facts {
    map[
      "lifetime_transaction_count" := Int(a.count),
      "lifetime_volume_minor" := Int(a.volume),
      "average_transaction_minor" := Int(if a.count == 0 then 0 else PyFloorDiv(a.volume, a.count)),
      "prior_flag_count" := Int(a.flags),
      "days_since_last_activity" := DaysFrom(a.lastSeen, now),
      "customer_known_days" := DaysFrom(a.firstSeen, now)
    ]
  }

  /** While the store cannot be reached there are no facts about history at all. */
  function HistoryFacts(p: Provider): Facts {
    if p.Live? then AggregateFacts(p.window.aggregates, p.window.now) else map[]
  }

  function BaseFacts(t: Transaction): Facts {
    map["amount_minor" := Int(t.amount), "currency" := Text(t.currency),
        "transaction_type" := Text(t.kind), "channel" := Text(t.channel)]
  }

  /** Items added one by one under a prefix, a later one replacing an earlier. */
  function Put(facts: Facts, prefix: string, items: Items): Facts {
    if items == [] then facts
    else
      var last := items[|items| - 1];
      Put(facts, prefix, items[..|items| - 1])[prefix + last.0 := last.1]
  }

  function AsItems(lists: Lists): Items {
    seq(|lists|, i requires 0 <= i < |lists| => (lists[i].0, Tuple(lists[i].1)))
  }

  function RequestFacts(t: Transaction): Facts {
    Put(Put(Put(BaseFacts(t), "", t.customer), "destination_", t.destination), "device_", t.device)
  }

  function FactsFor(t: Transaction, p: Provider, lists: Lists): Facts {
    Put(RequestFacts(t) + HistoryFacts(p), "", AsItems(lists))
  }

  method PutAll(facts: Facts, prefix: string, items: Items) returns (r: Facts)
    ensures r == Put(facts, prefix, items)
  {
    r := facts;
    for i := 0 to |items|
      invariant r == Put(facts, prefix, items[..i])
    {
      assert items[..i + 1][..i] == items[..i];
      r := r[prefix + items[i].0 := items[i].1];
    }
    assert items[..|items|] == items;
  }

  method BuildFacts(t: Transaction, p: Provider, lists: Lists) returns (facts: Facts)
    ensures facts == FactsFor(t, p, lists)
  {
    facts := BaseFacts(t);
    facts := PutAll(facts, "", t.customer);
    facts := PutAll(facts, "destination_", t.destination);
    facts := PutAll(facts, "device_", t.device);
    facts := facts + HistoryFacts(p);
    facts := PutAll(facts, "", AsItems(lists));
  }

  // ----------------------------------------------------------------- deciding

  function ContextFor(t: Transaction, p: Provider, lists: Lists, clock: Clock): Context {
    Context(FactsFor(t, p, lists), Build(p, clock))
  }

  function DecisionWith(rs: seq<CompiledRule>, t: Transaction, p: Provider, lists: Lists, clock: Clock,
                        fallback: Policy): Decided {
    Decide(RuleSet(rs), ContextFor(t, p, lists, clock), fallback, MAX_STEPS)
  }

  function FetchOf(t: Transaction, server: int, now: int): Fetch {
    Fetch(server, now, Some(Record(t.ref, t.amount, t.kind)))
  }

  /** How the round trip to the store went. */
  datatype Trip = Answered | RequestLost | ReplyLost

  class DecisionHandler {
    const rules: seq<CompiledRule>
    const lists: Lists
    const velocity: RedisVelocity
    var provider: Provider

    constructor (rules: seq<CompiledRule>, lists: Lists, velocity: RedisVelocity)
      ensures this.rules == rules && this.lists == lists && this.velocity == velocity
    {
      this.rules, this.lists, this.velocity := rules, lists, velocity;
      provider := Unavailable;
    }

    /** A trip that fails leaves a stand-in provider, not an exception. */
    method Gather(t: Transaction, server: int, now: int, trip: Trip)
      modifies this`provider, velocity`window, velocity.client`keys
      ensures velocity.client.keys
           == if trip == RequestLost then old(velocity.client.keys)
              else After(old(velocity.client.keys), FetchOf(t, server, now))
      ensures provider == if trip == Answered then Live(View(velocity.client.keys, now)) else Unavailable
    {
      if trip == RequestLost {
        provider := Unavailable;
      } else {
        velocity.FetchWindow(FetchOf(t, server, now));
        provider := if trip == Answered then Live(velocity.window) else Unavailable;
      }
    }

    method Evaluate(t: Transaction, server: int, now: int, trip: Trip, clock: Clock, fallback: Policy)
      returns (d: Decided, facts: Facts)
      modifies this`provider, velocity`window, velocity.client`keys
      ensures velocity.client.keys
           == if trip == RequestLost then old(velocity.client.keys)
              else After(old(velocity.client.keys), FetchOf(t, server, now))
      ensures var p := if trip == Answered then Live(View(velocity.client.keys, now)) else Unavailable;
              d == DecisionWith(rules, t, p, lists, clock, fallback)
      ensures facts == FactsFor(t, provider, lists)
    {
      Gather(t, server, now, trip);
      facts := BuildFacts(t, provider, lists);
      d := Decide(RuleSet(rules), Context(facts, Build(provider, clock)), fallback, MAX_STEPS);
    }
  }

  // ------------------------------------------------------------- facts persist

  lemma {:induction false} PutKeeps(facts: Facts, prefix: string, items: Items, name: string)
    requires forall i | i in items :: prefix + i.0 != name
    ensures name in Put(facts, prefix, items) <==> name in facts
    ensures name in facts ==> Put(facts, prefix, items)[name] == facts[name]
  {
    if items != [] {
      PutKeeps(facts, prefix, items[..|items| - 1], name);
    }
  }

  /** Every fact of `small` is in `large`, with the same value. */
  ghost predicate Within(small: Facts, large: Facts) {
    forall n | n in small :: n in large && small[n] == large[n]
  }

  lemma {:induction false} PutMonotone(small: Facts, large: Facts, prefix: string, items: Items)
    requires Within(small, large)
    ensures Within(Put(small, prefix, items), Put(large, prefix, items))
  {
    if items != [] {
      PutMonotone(small, large, prefix, items[..|items| - 1]);
    }
  }

  predicate HistoryName(name: string) {
    name in {"lifetime_transaction_count", "lifetime_volume_minor", "average_transaction_minor",
             "prior_flag_count", "days_since_last_activity", "customer_known_days"}
  }

  lemma {:induction false} PrefixedNames(tail: string)
    ensures !HistoryName("destination_" + tail) && !HistoryName("device_" + tail)
  {
    var a, b := "destination_" + tail, "device_" + tail;
    assert a[..2] == "de" && b[..2] == "de";
    assert "days_since_last_activity"[1] == 'a' && "lifetime_transaction_count"[0] == 'l'
        && "lifetime_volume_minor"[0] == 'l' && "average_transaction_minor"[0] == 'a'
        && "prior_flag_count"[0] == 'p' && "customer_known_days"[0] == 'c';
    assert a[0] == 'd' && a[1] == 'e' && b[0] == 'd' && b[1] == 'e';
  }

  lemma {:induction false} CustomerNames(t: Transaction, name: string)
    requires Accepted(t) && HistoryName(name)
    ensures forall i | i in t.customer :: "" + i.0 != name
  {
    forall i | i in t.customer ensures "" + i.0 != name {
      assert "" + i.0 == i.0;
    }
  }

  lemma {:induction false} PrefixedItems(items: Items, name: string)
    requires HistoryName(name)
    ensures forall i | i in items :: "destination_" + i.0 != name
    ensures forall i | i in items :: "device_" + i.0 != name
  {
    forall i | i in items ensures "destination_" + i.0 != name && "device_" + i.0 != name {
      PrefixedNames(i.0);
    }
  }

  lemma {:induction false} BaseNames(t: Transaction, name: string)
    requires HistoryName(name)
    ensures name !in BaseFacts(t)
  {
  }

  /** No accepted request can supply a fact by the name of an aggregate. */
  lemma {:induction false} RequestNames(t: Transaction, name: string)
    requires Accepted(t) && HistoryName(name)
    ensures name !in RequestFacts(t)
  {
    var base := BaseFacts(t);
    BaseNames(t, name);
    CustomerNames(t, name);
    PrefixedItems(t.destination, name);
    PrefixedItems(t.device, name);
    ItemsKeepAbsent(base, t.customer, t.destination, t.device, name);
  }

  lemma {:induction false} ItemsKeepAbsent(base: Facts, a: Items, b: Items, c: Items, name: string)
    requires name !in base && (forall i | i in a :: "" + i.0 != name)
    requires (forall i | i in b :: "destination_" + i.0 != name) && forall i | i in c :: "device_" + i.0 != name
    ensures name !in Put(Put(Put(base, "", a), "destination_", b), "device_", c)
  {
    PutKeeps(base, "", a, name);
    PutKeeps(Put(base, "", a), "destination_", b, name);
    PutKeeps(Put(Put(base, "", a), "destination_", b), "device_", c, name);
  }

  lemma {:induction false} FactsDegrade(t: Transaction, w: Window, lists: Lists)
    requires Accepted(t)
    ensures Within(FactsFor(t, Unavailable, lists), FactsFor(t, Live(w), lists))
  {
    var request := RequestFacts(t);
    var small, large := request + HistoryFacts(Unavailable), request + HistoryFacts(Live(w));
    forall n | n in small ensures n in large && small[n] == large[n] {
      if HistoryName(n) {
        RequestNames(t, n);
      }
    }
    PutMonotone(small, large, "", AsItems(lists));
  }

  lemma {:induction false} FunctionsDegrade(w: Window, clock: Clock)
    ensures var up, down := Build(Live(w), clock), Build(Unavailable, clock);
            && down.Keys == up.Keys
            && forall n, xs, ks | n in down :: down[n](xs, ks) == up[n](xs, ks) || down[n](xs, ks).RuleErr?
  {
    var up, down := Build(Live(w), clock), Build(Unavailable, clock);
    forall n, xs, ks | n in down ensures down[n](xs, ks) == up[n](xs, ks) || down[n](xs, ks).RuleErr? {
      CallDegrades(n, w, clock, xs, ks);
    }
  }

  lemma {:induction false} CallDegrades(n: string, w: Window, clock: Clock, xs: seq<Value>, ks: Kwargs)
    requires n in Build(Unavailable, clock)
    ensures var up, down := Build(Live(w), clock)[n](xs, ks), Build(Unavailable, clock)[n](xs, ks);
            down == up || down.RuleErr?
  {
  }

  lemma {:induction false} ContextDegrades(t: Transaction, w: Window, lists: Lists, clock: Clock)
    requires Accepted(t)
    ensures Degrades(ContextFor(t, Live(w), lists, clock), ContextFor(t, Unavailable, lists, clock))
  {
    FactsDegrade(t, w, lists);
    FunctionsDegrade(w, clock);
  }

  /** What losing the velocity store does to each rule and to the decision, for
      every rule set, transaction and window. */
  lemma {:induction false} StoreOutage(rs: seq<CompiledRule>, t: Transaction, w: Window, lists: Lists, clock: Clock,
                                       fallback: Policy)
    requires Accepted(t) && UniqueIds(rs) && DecisionWith(rs, t, Live(w), lists, clock, fallback).Decided?
    ensures forall r | r in rs ::
              SameOrFailed(Run(r.tree, ContextFor(t, Live(w), lists, clock), MAX_STEPS, 0),
                           Run(r.tree, ContextFor(t, Unavailable, lists, clock), MAX_STEPS, 0))
    ensures var up := DecisionWith(rs, t, Live(w), lists, clock, fallback);
            var down := DecisionWith(rs, t, Unavailable, lists, clock, fallback);
            && down.Decided?
            && (!down.d.degraded ==> down == up)
            && (FailsClosed(fallback, Block) && up.d.outcome == Blocked ==> down.d.outcome == Blocked)
  {
    var up, down := ContextFor(t, Live(w), lists, clock), ContextFor(t, Unavailable, lists, clock);
    ContextDegrades(t, w, lists, clock);
    forall r | r in rs ensures SameOrFailed(Run(r.tree, up, MAX_STEPS, 0), Run(r.tree, down, MAX_STEPS, 0)) {
      RunDegrades(r.tree, up, down, MAX_STEPS, 0);
    }
    OutageIsReported(RuleSet(rs), up, down, fallback, MAX_STEPS);
    if FailsClosed(fallback, Block) && Decide(RuleSet(rs), up, fallback, MAX_STEPS).d.outcome == Blocked {
      OutageKeepsBlocks(rs, up, down, fallback, MAX_STEPS);
    }
  }
}
