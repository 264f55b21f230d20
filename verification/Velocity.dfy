/** Rolling velocity windows over one customer's Redis keys.

    A decision is one MULTI/EXEC: expire, trim, write, read. `After` is its effect
    on the keys and `View` the window it returns; `RedisVelocity.FetchWindow` performs
    both step by step and is proved against them. Times are whole seconds. */
module Velocity {
  import opened Values
  import opened Decimal

  const LARGEST_WINDOW: int := 2_592_000
  const KEY_TTL: int := LARGEST_WINDOW + 86_400
  const MAX_MEMBERS_FETCHED: nat := 5_000

  // ------------------------------------------------------------------ windows

  datatype Entry = Entry(ref: string, score: int, amount: int, kind: string)

  /** The keyword arguments of `velocity_count` and `velocity_sum`, as they come. */
  datatype Filter = Filter(min: Option<Value>, max: Option<Value>, kind: Option<Value>)

  const NO_FILTER := Filter(None, None, None)

  datatype Aggregates = Aggregates(count: int, volume: int, flags: int,
                                   firstSeen: Option<int>, lastSeen: Option<int>)

  datatype Window = Window(now: int, entries: seq<Entry>, truncated: bool, aggregates: Aggregates)

  /** An amount bound that is not a number cannot be compared with an amount. */
  function WithinBounds(amount: int, f: Filter): Outcome<bool> {
    if f.min.Some? && Numeric(f.min.value).None? then HostErr
    else if f.min.Some? && amount < Numeric(f.min.value).value then Val(false)
    else if f.max.Some? && Numeric(f.max.value).None? then HostErr
    else Val(f.max.Some? ==> amount <= Numeric(f.max.value).value)
  }

  predicate OfKind(kind: string, f: Filter) {
    f.kind.Some? ==> f.kind.value == Text(kind)
  }

  predicate WellTyped(f: Filter) {
    && (f.min.Some? ==> Numeric(f.min.value).Some?)
    && (f.max.Some? ==> Numeric(f.max.value).Some?)
  }

  function Matching(entries: seq<Entry>, cutoff: int, f: Filter): Outcome<seq<int>> {
    if entries == [] then Val([])
    else if entries[0].score < cutoff then Matching(entries[1..], cutoff, f)
    else
      var fits :- WithinBounds(entries[0].amount, f);
      var rest :- Matching(entries[1..], cutoff, f);
      Val(if fits && OfKind(entries[0].kind, f) then [entries[0].amount] + rest else rest)
  }

  function Sum(xs: seq<int>): int {
    if xs == [] then 0 else xs[0] + Sum(xs[1..])
  }

  function Count(w: Window, seconds: int, f: Filter): Outcome<int> {
    var amounts :- Matching(w.entries, w.now - seconds, f);
    Val(|amounts|)
  }

  function Total(w: Window, seconds: int, f: Filter): Outcome<int> {
    var amounts :- Matching(w.entries, w.now - seconds, f);
    Val(Sum(amounts))
  }

  // ----------------------------------------------- the amounts hash's encoding

  function Encode(amount: int, kind: string): string {
    Str(amount) + ":" + kind
  }

  /** `text.partition(":")`: what precedes the first colon, and what follows it. */
  function Partition(text: string): (string, string) {
    if text == "" then ("", "")
    else if text[0] == ':' then ("", text[1..])
    else
      var (head, tail) := Partition(text[1..]);
      ([text[0]] + head, tail)
  }

  function SplitAmount(raw: Option<string>): (int, string) {
    if raw.None? then (0, "")
    else
      var (head, kind) := Partition(raw.value);
      var amount := IntOf(head);
      (if amount.Some? then amount.value else 0, kind)
  }

  lemma {:induction false} PartitionSplits(head: string, tail: string)
    requires ':' !in head
    ensures Partition(head + ":" + tail) == (head, tail)
  {
    var text := head + ":" + tail;
    if head == "" {
      assert text[1..] == tail;
    } else {
      assert text[1..] == head[1..] + ":" + tail;
      PartitionSplits(head[1..], tail);
      assert [head[0]] + head[1..] == head;
    }
  }

  /** Every amount and every transaction type survives the hash, even a type with
      colons of its own. */
  lemma {:induction false} EncodingRoundTrips(amount: int, kind: string)
    ensures SplitAmount(Some(Encode(amount, kind))) == (amount, kind)
  {
    DigitsShape(if amount < 0 then -amount else amount);
    PartitionSplits(Str(amount), kind);
    IntOfStr(amount);
  }

  // ------------------------------------------------------------ the Redis keys

  datatype Member = Member(ref: string, score: int)

  datatype Record = Record(ref: string, amount: int, kind: string)

  /** The sorted set is kept as Redis keeps it: by score, then by member. */
  datatype Keys = Keys(members: seq<Member>, amounts: map<string, string>,
                       aggregates: Aggregates, deadline: Option<int>)

  const EMPTY := Keys([], map[], Aggregates(0, 0, 0, None, None), None)

  /** One fetch: the server's clock decides expiry, the caller's everything else. */
  datatype Fetch = Fetch(server: int, now: int, record: Option<Record>)

  predicate Before(a: Member, b: Member) {
    a.score < b.score || (a.score == b.score && TextLess(a.ref, b.ref))
  }

  function Keep(z: seq<Member>, p: Member -> bool): seq<Member> {
    if z == [] then []
    else (if p(z[0]) then [z[0]] else []) + Keep(z[1..], p)
  }

  function ScoredFrom(cutoff: int): Member -> bool {
    (m: Member) => m.score >= cutoff
  }

  function Outlives(cutoff: int): Member -> bool {
    (m: Member) => !(0 <= m.score <= cutoff)
  }

  function OtherThan(ref: string): Member -> bool {
    (m: Member) => m.ref != ref
  }

  /** `ZRANGEBYSCORE key cutoff +inf`. */
  function AtLeast(z: seq<Member>, cutoff: int): seq<Member> {
    Keep(z, ScoredFrom(cutoff))
  }

  /** `ZREMRANGEBYSCORE key 0 cutoff`: inclusive at both ends. */
  function Trim(z: seq<Member>, cutoff: int): seq<Member> {
    Keep(z, Outlives(cutoff))
  }

  function Without(z: seq<Member>, ref: string): seq<Member> {
    Keep(z, OtherThan(ref))
  }

  function Insert(z: seq<Member>, m: Member): seq<Member> {
    if z == [] || Before(m, z[0]) then [m] + z else [z[0]] + Insert(z[1..], m)
  }

  /** `ZADD`: a member already there has its score updated. */
  function Add(z: seq<Member>, m: Member): seq<Member> {
    Insert(Without(z, m.ref), m)
  }

  function LastN(z: seq<Member>, n: nat): seq<Member> {
    if |z| > n then z[|z| - n..] else z
  }

  function Expired(k: Keys, server: int): Keys {
    if k.deadline.Some? && server >= k.deadline.value
    then k.(members := [], amounts := map[], deadline := None) else k
  }

  function Written(k: Keys, f: Fetch): Keys {
    if f.record.None? then k
    else
      var r := f.record.value;
      Keys(Add(k.members, Member(r.ref, f.now)),
           k.amounts[r.ref := Encode(r.amount, r.kind)],
           k.aggregates.(count := k.aggregates.count + 1,
                         volume := k.aggregates.volume + r.amount,
                         firstSeen := if k.aggregates.firstSeen.None? then Some(f.now) else k.aggregates.firstSeen,
                         lastSeen := Some(f.now)),
           Some(f.server + KEY_TTL))
  }

  function Trimmed(k: Keys, now: int): Keys {
    k.(members := Trim(k.members, now - LARGEST_WINDOW))
  }

  function After(k: Keys, f: Fetch): Keys {
    Written(Trimmed(Expired(k, f.server), f.now), f)
  }

  function EntryOf(m: Member, amounts: map<string, string>): Entry {
    var (amount, kind) := SplitAmount(if m.ref in amounts then Some(amounts[m.ref]) else None);
    Entry(m.ref, m.score, amount, kind)
  }

  function EntriesOf(z: seq<Member>, amounts: map<string, string>): seq<Entry> {
    seq(|z|, i requires 0 <= i < |z| => EntryOf(z[i], amounts))
  }

  /** The window read at the end of a fetch, from the keys it left behind. */
  function View(k: Keys, now: int): Window {
    var read := AtLeast(k.members, now - LARGEST_WINDOW);
    Window(now, EntriesOf(LastN(read, MAX_MEMBERS_FETCHED), k.amounts),
           |read| > MAX_MEMBERS_FETCHED, k.aggregates)
  }

  /** The server: every provider for the same customer shares one of these. */
  class Redis {
    var keys: Keys

    constructor ()
      ensures keys == EMPTY
    {
      keys := EMPTY;
    }
  }

  class RedisVelocity {
    const client: Redis
    var window: Window

    constructor (client: Redis)
      ensures this.client == client
    {
      this.client := client;
      window := Window(0, [], false, Aggregates(0, 0, 0, None, None));
    }

    /** One atomic trim, write and read. */
    method FetchWindow(f: Fetch)
      modifies client`keys, this`window
      ensures client.keys == After(old(client.keys), f)
      ensures window == View(client.keys, f.now)
    {
      client.keys := Expired(client.keys, f.server);
      client.keys := Trimmed(client.keys, f.now);
      client.keys := Written(client.keys, f);
      var members := AtLeast(client.keys.members, f.now - LARGEST_WINDOW);
      var truncated := |members| > MAX_MEMBERS_FETCHED;
      members := LastN(members, MAX_MEMBERS_FETCHED);
      var entries: seq<Entry> := [];
      for i := 0 to |members|
        invariant |entries| == i
        invariant forall j | 0 <= j < i :: entries[j] == EntryOf(members[j], client.keys.amounts)
      {
        entries := entries + [EntryOf(members[i], client.keys.amounts)];
      }
      assert entries == EntriesOf(members, client.keys.amounts);
      window := Window(f.now, entries, truncated, client.keys.aggregates);
    }
  }
}
